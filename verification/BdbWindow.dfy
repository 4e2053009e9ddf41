/**
 The sub-window cache in front of each switch device
 (chassis/modules/nokia-kernel-bdb.c, iproc_map_addr and the IPROC cases of
 nokia_ioctl): one hardware window register per device, a software note of what
 was last loaded into it, and a mutex per device around each register access.

 Assumed of the hardware: an access at offset 0x7000 of the device's base goes
 through the window, to the window register's page plus the low 12 bits.
 */
module BdbWindow {
  import opened Wrappers
  import opened Runs

  type Tid = nat
  const NOBODY: nat := 0
  const WORD: nat := 0x1_0000_0000
  const PAGE: nat := 0x1000
  const WINDOW_OFF: nat := 0x7000
  const FIXED_OFF: nat := 0x6000
  const NONE_LOADED: nat := 0xFFFF_FFFF

  /** A device: its bus base, the note of the last window base, its window register, its mutex. */
  datatype Dev = Dev(base: nat, last: nat, window: nat, lock: Tid, dirty: bool)

  type Label = n: nat | n <= 7
  const IDLE: Label := 0
  const TAKE_LOCK: Label := 1
  const COMPARE: Label := 2
  const WRITE_MAP: Label := 3
  const READ_MAP: Label := 4
  const NOTE: Label := 5
  const ACCESS: Label := 6
  const DROP: Label := 7

  datatype Thread = Thread(at: Label, dev: nat, addr: nat)

  /** `dirty` is a history variable: a window write failed, or somebody else wrote the register, and no write has succeeded since. */
  datatype State = State(devs: seq<Dev>, threads: map<Tid, Thread>)

  datatype Step =
    | Ioctl(t: Tid, dev: nat, addr: nat)
    | Go(t: Tid, ok: bool)
    | AddUnit(d: nat, base: nat)
    | Meddle(d: nat, window: nat)

  function PageBase(addr: nat): nat {
    addr - addr % PAGE
  }

  /** Two pages are reached through a fixed window and never touch the register. */
  predicate Fixed(addr: nat) {
    PageBase(addr) == 0x10231000 || PageBase(addr) == 0x18013000
  }

  /** The bus address iproc_map_addr returns, in 32-bit arithmetic. */
  function Translated(dev: Dev, addr: nat): nat {
    (dev.base + (if Fixed(addr) then FIXED_OFF else WINDOW_OFF) + addr % PAGE) % WORD
  }

  /** Where a bus access through the window ends up. */
  function ThroughWindow(dev: Dev, bus: nat): nat {
    PageBase(dev.window) + (bus - dev.base - WINDOW_OFF) % WORD
  }

  predicate Shape(s: State) {
    && NOBODY !in s.threads
    && forall t :: t in s.threads ==> s.threads[t].dev < |s.devs| && s.threads[t].addr < WORD
  }

  predicate Enabled(s: State, step: Step) {
    && Shape(s)
    && match step
       case Ioctl(t, d, addr) => t in s.threads && s.threads[t].at == IDLE && d < |s.devs| && addr < WORD
       case Go(t, _) => t in s.threads && s.threads[t].at != IDLE && (s.threads[t].at == TAKE_LOCK ==> s.devs[s.threads[t].dev].lock == NOBODY)
       case AddUnit(d, base) => d < |s.devs| && s.devs[d].lock == NOBODY && base < WORD
       case Meddle(d, window) => d < |s.devs|
  }

  function Do(s: State, step: Step): State
    requires Enabled(s, step)
  {
    match step
    case Ioctl(t, d, addr) => s.(threads := s.threads[t := Thread(TAKE_LOCK, d, addr)])
    case Go(t, ok) =>
      var th := s.threads[t];
      var (th', dev') := StepOf(t, th, s.devs[th.dev], ok);
      s.(threads := s.threads[t := th'], devs := s.devs[th.dev := dev'])
    case AddUnit(d, base) =>
      s.(devs := s.devs[d := s.devs[d].(base := base, last := NONE_LOADED, lock := NOBODY)])
    case Meddle(d, window) =>
      s.(devs := s.devs[d := s.devs[d].(window := window, dirty := true)])
  }

  /** One step under, or around, the device's mutex; `ok` says whether the window write succeeds. */
  function StepOf(t: Tid, th: Thread, dev: Dev, ok: bool): (Thread, Dev) {
    if th.at == TAKE_LOCK then (th.(at := COMPARE), dev.(lock := t))
    else if th.at == COMPARE then
      (th.(at := if Fixed(th.addr) || dev.last == PageBase(th.addr) then ACCESS else WRITE_MAP), dev)
    else if th.at == WRITE_MAP then
      (th.(at := READ_MAP), if ok then dev.(window := PageBase(th.addr) + 1, dirty := false) else dev.(dirty := true))
    else if th.at == READ_MAP then (th.(at := NOTE), dev)
    else if th.at == NOTE then (th.(at := ACCESS), dev.(last := PageBase(th.addr)))
    else if th.at == ACCESS then (th.(at := DROP), dev)
    else if th.at == DROP then (th.(at := IDLE), dev.(lock := NOBODY))
    else (th, dev)
  }

  predicate Inside(at: Label) {
    COMPARE <= at <= DROP
  }

  /** Every page but the fixed ones. */
  predicate ThreadOk(t: Tid, th: Thread, dev: Dev) {
    && (Inside(th.at) <==> dev.lock == t)
    && (WRITE_MAP <= th.at <= NOTE ==> !Fixed(th.addr))
    && (th.at == ACCESS && !Fixed(th.addr) ==> dev.last == PageBase(th.addr))
    && (!dev.dirty && (th.at == READ_MAP || th.at == NOTE) ==> PageBase(dev.window) == PageBase(th.addr))
  }

  /** The note is right unless it is empty, the register is dirty, or the holder is between writing the register and the note. */
  ghost predicate DevOk(s: State, d: nat)
    requires d < |s.devs|
  {
    var dev := s.devs[d];
    && (dev.lock != NOBODY ==> dev.lock in s.threads && s.threads[dev.lock].dev == d)
    && (!dev.dirty && dev.last != NONE_LOADED
        && !(dev.lock in s.threads && (s.threads[dev.lock].at == READ_MAP || s.threads[dev.lock].at == NOTE))
        ==> PageBase(dev.window) == dev.last)
  }

  ghost predicate Inv(s: State) {
    && Shape(s)
    && (forall t :: t in s.threads ==> ThreadOk(t, s.threads[t], s.devs[s.threads[t].dev]))
    && (forall d {:trigger DevOk(s, d)} :: 0 <= d < |s.devs| ==> DevOk(s, d))
  }

  /** A thread's own step under, or around, the mutex. */
  lemma GoKeepsInv(s: State, t: Tid, ok: bool)
    requires Inv(s) && Enabled(s, Go(t, ok))
    ensures Inv(Do(s, Go(t, ok)))
  {
    var s' := Do(s, Go(t, ok));
    assert DevOk(s, s.threads[t].dev);
    forall d | 0 <= d < |s'.devs| ensures DevOk(s', d) { assert DevOk(s, d); }
  }

  lemma StepKeepsInv(s: State, step: Step)
    requires Inv(s) && Enabled(s, step)
    ensures Inv(Do(s, step))
  {
    if step.Go? {
      GoKeepsInv(s, step.t, step.ok);
    } else {
      var s' := Do(s, step);
      assert step.Ioctl? ==> DevOk(s, step.dev);
      forall d | 0 <= d < |s'.devs| ensures DevOk(s', d) { assert DevOk(s, d); }
    }
  }

  ghost predicate Init(s: State) {
    && Shape(s)
    && (forall t :: t in s.threads ==> s.threads[t].at == IDLE)
    && (forall d :: 0 <= d < |s.devs| ==> s.devs[d].lock == NOBODY && s.devs[d].last == NONE_LOADED)
  }

  ghost predicate IsRun(ss: seq<State>, steps: seq<Step>) {
    && |ss| == |steps| + 1
    && Init(ss[0])
    && forall i :: 0 <= i < |steps| ==> Enabled(ss[i], steps[i]) && ss[i + 1] == Do(ss[i], steps[i])
  }

  lemma {:induction false} RunKeepsInv(ss: seq<State>, steps: seq<Step>, i: nat)
    requires IsRun(ss, steps) && i < |ss|
    ensures Inv(ss[i])
  {
    if i > 0 {
      RunKeepsInv(ss, steps, i - 1);
      StepKeepsInv(ss[i - 1], steps[i - 1]);
    }
  }

  /** The window arithmetic: an access reaches the address named exactly when the window holds its page. */
  lemma WindowedAccessReachesIff(dev: Dev, addr: nat)
    requires !Fixed(addr) && addr < WORD && dev.base < WORD
    ensures ThroughWindow(dev, Translated(dev, addr)) == addr <==> PageBase(dev.window) == PageBase(addr)
  {
    var off := WINDOW_OFF + addr % PAGE;
    var bus := Translated(dev, addr);
    assert bus == dev.base + off || bus == dev.base + off - WORD;
    assert (bus - dev.base - WINDOW_OFF) % WORD == addr % PAGE;
  }

  /** Two stretches of the address space have a window of their own at 0x6000, all else shares the one at 0x7000; so the two kinds of access never meet. */
  lemma WhichWindow(dev: Dev, addr: nat, other: nat)
    requires addr < WORD && other < WORD && dev.base < WORD
    ensures var fixed := 0x10231000 <= addr < 0x10232000 || 0x18013000 <= addr < 0x18014000;
            (Translated(dev, addr) - dev.base) % 0x1_0000_0000 == (if fixed then 0x6000 else 0x7000) + addr % 0x1000
    ensures Translated(dev, addr) == Translated(dev, other) ==> (Fixed(addr) <==> Fixed(other)) && addr % 0x1000 == other % 0x1000
  {
    OffsetStands(dev.base, (if Fixed(addr) then FIXED_OFF else WINDOW_OFF) + addr % PAGE);
    OffsetStands(dev.base, (if Fixed(other) then FIXED_OFF else WINDOW_OFF) + other % PAGE);
  }

  lemma OffsetStands(base: nat, off: nat)
    requires base < WORD && off < 0x8000
    ensures ((base + off) % WORD - base) % WORD == off
  {
    assert (base + off) % WORD == base + off || (base + off) % WORD == base + off - WORD;
  }

  /** An access to one of the two never touches the window register or the note, in any run. */
  lemma FixedNeverLoads(ss: seq<State>, steps: seq<Step>, i: nat, t: Tid, ok: bool)
    requires IsRun(ss, steps) && i < |ss| && t in ss[i].threads && ss[i].threads[t].at != IDLE && Enabled(ss[i], Go(t, ok))
    requires var addr := ss[i].threads[t].addr; 0x10231000 <= addr < 0x10232000 || 0x18013000 <= addr < 0x18014000
    ensures var d, next := ss[i].threads[t].dev, Do(ss[i], Go(t, ok));
      d < |ss[i].devs| == |next.devs| && next.devs[d].window == ss[i].devs[d].window && next.devs[d].last == ss[i].devs[d].last
  {
    RunKeepsInv(ss, steps, i);
  }

  /**
   In every interleaving of accesses, over all devices and threads, with units
   added whenever their mutex is free: a windowed access made while the register is
   not dirty finds its own page in the window and reaches the very address named.
   The empty note never matches a page, so the first access always loads.
   */
  lemma CachedWindowIsRight(ss: seq<State>, steps: seq<Step>, i: nat, t: Tid)
    requires IsRun(ss, steps) && i < |ss|
    requires t in ss[i].threads && ss[i].threads[t].at == ACCESS && ss[i].threads[t].dev < |ss[i].devs|
    requires var th := ss[i].threads[t]; !Fixed(th.addr) && !ss[i].devs[th.dev].dirty && ss[i].devs[th.dev].base < WORD
    ensures var th, dev := ss[i].threads[t], ss[i].devs[ss[i].threads[t].dev];
            PageBase(dev.window) == PageBase(th.addr) && ThroughWindow(dev, Translated(dev, th.addr)) == th.addr
  {
    RunKeepsInv(ss, steps, i);
    var th := ss[i].threads[t];
    assert DevOk(ss[i], th.dev);
    WindowedAccessReachesIff(ss[i].devs[th.dev], th.addr);
  }

  // ---------------------------------------------------------------- a failed load

  /** The step function of its runs. */
  ghost function Next(s: State, step: Step): Option<State> {
    if Enabled(s, step) then Some(Do(s, step)) else None
  }

  /** The access goes to another page than the one named. */
  predicate Misdirected(s: State, t: Tid)
    requires t in s.threads && s.threads[t].dev < |s.devs|
  {
    ThroughWindow(s.devs[s.threads[t].dev], Translated(s.devs[s.threads[t].dev], s.threads[t].addr)) != s.threads[t].addr
  }

  /**
   The result of the window write is ignored: after a failed one the access goes
   to whatever page the window still holds, and the note calls the page loaded.
   */
  lemma FailedLoadMisdirects(s: State, t: Tid) returns (s': State)
    requires Inv(s) && t in s.threads && s.threads[t].at == WRITE_MAP
    requires var dev := s.devs[s.threads[t].dev]; dev.base < WORD && PageBase(dev.window) != PageBase(s.threads[t].addr)
    ensures Leads(Next, s, [Go(t, false), Go(t, true), Go(t, true)], s') && Inv(s')
    ensures t in s'.threads && s'.threads[t] == s.threads[t].(at := ACCESS) && Misdirected(s', t)
    ensures Astray(s', s.threads[t].dev, PageBase(s.threads[t].addr)) || !AllOnPage(s', s.threads[t].dev, PageBase(s.threads[t].addr))
    ensures s'.threads.Keys == s.threads.Keys && forall u :: u in s.threads && u != t ==> s'.threads[u] == s.threads[u]
  {
    var s1 := Do(s, Go(t, false));
    var s2 := Do(s1, Go(t, true));
    s' := Do(s2, Go(t, true));
    StepKeepsInv(s, Go(t, false));
    StepKeepsInv(s1, Go(t, true));
    StepKeepsInv(s2, Go(t, true));
    LeadsOn(Next, s, [], s, Go(t, false));
    LeadsOn(Next, s, [] + [Go(t, false)], s1, Go(t, true));
    LeadsOn(Next, s, [] + [Go(t, false)] + [Go(t, true)], s2, Go(t, true));
    assert [] + [Go(t, false)] + [Go(t, true)] + [Go(t, true)] == [Go(t, false), Go(t, true), Go(t, true)];
    WindowedAccessReachesIff(s'.devs[s'.threads[t].dev], s'.threads[t].addr);
  }

  /**
   Where a call of thread t stands that was comparing in s0: nobody else has touched
   the device, and its window write, if it makes one, succeeds or not as `ok` says.
   */
  ghost predicate UnderWay(s0: State, s: State, t: Tid, ok: bool)
    requires Shape(s0) && t in s0.threads
  {
    && Inv(s) && t in s.threads
    && var th0, th := s0.threads[t], s.threads[t];
       var dev0, page := s0.devs[th0.dev], PageBase(th0.addr);
       COMPARE <= th.at <= ACCESS ==>
         && th.dev == th0.dev && th.addr == th0.addr && th.dev < |s.devs|
         && var dev := s.devs[th.dev];
            dev.base == dev0.base &&
            if th.at == COMPARE then dev.last == dev0.last && dev.window == dev0.window
            else if th.at == WRITE_MAP then dev0.last != page && dev.window == dev0.window
            else if th.at == ACCESS && dev0.last == page then dev.window == dev0.window
            else dev0.last != page && dev.window == (if ok then page + 1 else dev0.window)
  }

  /** The device is left alone but by calls on it, and thread t makes no other call. */
  predicate LeavesAlone(s: State, step: Step, t: Tid, ok: bool)
    requires t in s.threads
  {
    match step
    case Ioctl(u, _, _) => u != t
    case Go(u, won) => u == t ==> won == ok
    case AddUnit(d, _) => true
    case Meddle(d, _) => d != s.threads[t].dev
  }

  lemma StaysUnderWay(s0: State, s: State, step: Step, t: Tid, ok: bool)
    requires Shape(s0) && t in s0.threads && !Fixed(s0.threads[t].addr)
    requires UnderWay(s0, s, t, ok) && Enabled(s, step) && LeavesAlone(s, step, t, ok)
    requires s.threads[t].at != TAKE_LOCK
    ensures UnderWay(s0, Do(s, step), t, ok) && Do(s, step).threads[t].at != TAKE_LOCK
  {
    StepKeepsInv(s, step);
  }

  ghost predicate AllLeaveAlone(s: State, steps: seq<Step>, t: Tid, ok: bool)
    decreases |steps|
  {
    steps == [] || (t in s.threads && LeavesAlone(s, steps[0], t, ok) && Enabled(s, steps[0]) && AllLeaveAlone(Do(s, steps[0]), steps[1..], t, ok))
  }

  lemma {:induction false} UnderWayReaches(s0: State, s: State, steps: seq<Step>, s': State, t: Tid, ok: bool)
    requires Shape(s0) && t in s0.threads && !Fixed(s0.threads[t].addr) && UnderWay(s0, s, t, ok) && s.threads[t].at != TAKE_LOCK
    requires Leads(Next, s, steps, s') && AllLeaveAlone(s, steps, t, ok)
    ensures UnderWay(s0, s', t, ok)
    decreases |steps|
  {
    if steps != [] {
      StaysUnderWay(s0, s, steps[0], t, ok);
      UnderWayReaches(s0, Do(s, steps[0]), steps[1..], s', t, ok);
    }
  }

  /** The device on arrival at the access, after its window was written or not. */
  lemma AstrayIff(dev0: Dev, dev: Dev, addr: nat, ok: bool)
    requires !Fixed(addr) && addr < WORD && dev.base < WORD
    requires dev.window == if dev0.last == PageBase(addr) || !ok then dev0.window else PageBase(addr) + 1
    ensures ThroughWindow(dev, Translated(dev, addr)) != addr <==>
            PageBase(dev0.window) != PageBase(addr) && (dev0.last == PageBase(addr) || !ok)
  {
    WindowedAccessReachesIff(dev, addr);
  }

  /**
   Exactly when a call goes astray, as can be read off before it compares: the window
   does not hold its page, and the note says it does or the window write fails.
   Whatever other calls do in between, on this device or on others.
   */
  lemma CallGoesAstrayIff(s: State, t: Tid, ok: bool, steps: seq<Step>, s': State)
    requires Inv(s) && t in s.threads && s.threads[t].at == COMPARE && !Fixed(s.threads[t].addr)
    requires s.devs[s.threads[t].dev].base < WORD
    requires Leads(Next, s, steps, s') && AllLeaveAlone(s, steps, t, ok) && t in s'.threads && s'.threads[t].at == ACCESS
    ensures s'.threads[t].dev < |s'.devs|
    ensures var dev, page := s.devs[s.threads[t].dev], PageBase(s.threads[t].addr);
            Misdirected(s', t) <==> PageBase(dev.window) != page && (dev.last == page || !ok)
  {
    UnderWayReaches(s, s, steps, s', t, ok);
    AstrayIff(s.devs[s.threads[t].dev], s'.devs[s'.threads[t].dev], s'.threads[t].addr, ok);
  }

  /** Every call under way on the device names this page, or one that needs no window. */
  predicate AllOnPage(s: State, d: nat, page: nat) {
    forall t :: t in s.threads && s.threads[t].dev == d && s.threads[t].at != IDLE ==>
      Fixed(s.threads[t].addr) || PageBase(s.threads[t].addr) == page
  }

  /** The note calls a page loaded that the window does not hold, and nobody is about to load another. */
  predicate Astray(s: State, d: nat, page: nat) {
    && d < |s.devs| && AllOnPage(s, d, page)
    && s.devs[d].last == page && PageBase(s.devs[d].window) != page
    && forall t :: t in s.threads && s.threads[t].dev == d ==> !(WRITE_MAP <= s.threads[t].at <= NOTE)
  }

  /** The step asks nothing else of the device, does not re-add it, and nobody meddles with its register. */
  predicate Sticks(step: Step, d: nat, page: nat) {
    match step
    case Ioctl(_, e, addr) => e == d ==> Fixed(addr) || PageBase(addr) == page
    case Go(_, _) => true
    case AddUnit(e, _) => e != d
    case Meddle(e, _) => e != d
  }

  lemma AstrayStays(s: State, step: Step, d: nat, page: nat)
    requires Inv(s) && Enabled(s, step) && Astray(s, d, page) && Sticks(step, d, page)
    ensures Astray(Do(s, step), d, page)
  {
  }

  /** Every later access to the same page goes astray too, whoever makes it, until another page is asked for. */
  lemma {:induction false} AstrayForGood(s: State, steps: seq<Step>, s': State, d: nat, page: nat, t: Tid)
    requires Inv(s) && Astray(s, d, page) && Leads(Next, s, steps, s')
    requires forall i :: 0 <= i < |steps| ==> Sticks(steps[i], d, page)
    requires t in s'.threads && s'.threads[t].at == ACCESS && s'.threads[t].dev == d && !Fixed(s'.threads[t].addr)
    ensures d < |s'.devs| && (s'.devs[d].base < WORD ==> Misdirected(s', t))
    decreases |steps|
  {
    if steps == [] {
      if s'.devs[d].base < WORD { WindowedAccessReachesIff(s'.devs[d], s'.threads[t].addr); }
    } else {
      StepKeepsInv(s, steps[0]);
      AstrayStays(s, steps[0], d, page);
      AstrayForGood(Do(s, steps[0]), steps[1..], s', d, page, t);
    }
  }

  /** Thread t, alone at work, is about to load a page that the window does not hold. */
  ghost predicate AboutToLoad(s: State, t: Tid, d: nat, addr: nat) {
    && Inv(s) && t in s.threads && s.threads[t] == Thread(WRITE_MAP, d, addr) && d < |s.devs| && s.devs[d].base < WORD
    && PageBase(s.devs[d].window) != PageBase(addr)
    && forall u :: u in s.threads && u != t ==> s.threads[u].at == IDLE
  }

  /** A first access, up to there. */
  lemma ComesToLoad(s: State, t: Tid, d: nat, addr: nat) returns (steps: seq<Step>, s': State)
    requires Init(s) && t in s.threads && d < |s.devs| && s.devs[d].base < WORD && addr < WORD && !Fixed(addr)
    requires PageBase(s.devs[d].window) != PageBase(addr)
    ensures Leads(Next, s, steps, s') && AboutToLoad(s', t, d, addr)
  {
    var s1 := Do(s, Ioctl(t, d, addr));
    StepKeepsInv(s, Ioctl(t, d, addr));
    var s2 := Do(s1, Go(t, true));
    StepKeepsInv(s1, Go(t, true));
    s' := Do(s2, Go(t, true));
    StepKeepsInv(s2, Go(t, true));
    LeadsOn(Next, s, [], s, Ioctl(t, d, addr));
    LeadsOn(Next, s, [] + [Ioctl(t, d, addr)], s1, Go(t, true));
    LeadsOn(Next, s, [] + [Ioctl(t, d, addr)] + [Go(t, true)], s2, Go(t, true));
    steps := [] + [Ioctl(t, d, addr)] + [Go(t, true)] + [Go(t, true)];
  }

  /** It happens: from the start, the first access to any page the window does not happen to hold, if its load fails. */
  lemma FailedLoadHappens(s: State, t: Tid, d: nat, addr: nat) returns (steps: seq<Step>, s': State)
    requires Init(s) && t in s.threads && d < |s.devs| && s.devs[d].base < WORD && addr < WORD && !Fixed(addr)
    requires PageBase(s.devs[d].window) != PageBase(addr)
    ensures Leads(Next, s, steps, s') && Inv(s') && t in s'.threads
    ensures s'.threads[t].at == ACCESS && s'.threads[t].addr == addr && s'.threads[t].dev == d < |s'.devs| && Misdirected(s', t)
    ensures Astray(s', d, PageBase(addr))
  {
    var before, loading := ComesToLoad(s, t, d, addr);
    s' := FailedLoadMisdirects(loading, t);
    var more := [Go(t, false), Go(t, true), Go(t, true)];
    LeadsThen(Next, s, before, loading, more, s');
    steps := before + more;
  }
}
