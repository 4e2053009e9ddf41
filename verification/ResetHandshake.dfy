/**
 The port-reset handshake of the 7220 D4, seen from one port: Sfp.reset in
 ixr7220d4/sonic_platform/sfp.py on one side, the presence poller of sfp_event.py
 on the other, and between them the flag and the reset line that
 ixr7220d4/modules/d4_cpld1.c keeps.  Steps are single reads and writes of a
 device file and interleave freely; one reset may follow another.

 The reset lines of eight ports are one register.  Writing one port's line reads
 the register and writes it back with that port's bit set, in two accesses that no
 lock joins; so a neighbour's write puts this port's line back to what the
 neighbour has read.
 */
module ResetHandshake {
  import opened Folds

  const MAX_LOOKS: nat := 8

  /** What the poller makes of a present port's flag: the status it will report, and the flag it writes back, if any. */
  datatype Verdict = Verdict(present: bool, write: int)

  const NO_WRITE: int := -1

  function Judge(flag: int): Verdict {
    if flag == 1 then Verdict(false, 2)
    else if flag == 2 then Verdict(false, NO_WRITE)
    else if flag == 3 then Verdict(true, 0)
    else Verdict(true, NO_WRITE)
  }

  /** Where the poller's current round stands with this port. */
  datatype Poll =
    | Unread
    | Raw(present: bool)
    | Writing(verdict: Verdict)
    | Decided(present: bool)

  /** Where a reset stands; `looks` counts the looks at the flag that did not find a 2. */
  datatype Reset =
    | NotStarted
    | Mark
    | LowPower
    | Hold
    | Look(looks: nat)
    | Release
    | MarkDone
    | Finished(ok: bool)

  /**
   The reset line: its value (true is released), and what neighbours have read of it
   and not yet written back.  Two history variables: `want`, what this port's resets
   last wrote; `stale`, the neighbours whose read precedes that write.
   */
  datatype Line = Line(value: bool, copies: map<nat, bool>, want: bool, stale: set<nat>)

  /** A write of this port's own line. */
  function Write(l: Line, b: bool): Line {
    l.(value := b, want := b, stale := l.copies.Keys)
  }

  function ReadByNeighbour(l: Line, n: nat): Line {
    l.(copies := l.copies[n := l.value], stale := l.stale - {n})
  }

  function WrittenByNeighbour(l: Line, n: nat): Line {
    if n in l.copies then l.(value := l.copies[n], copies := l.copies - {n}, stale := l.stale - {n}) else l
  }

  /**
   The port: presence, the driver's flag, the reset line, the poller's last list,
   both programs, and, as history, the events reported.
   */
  datatype State = State(present: bool, flag: int, line: Line, shown: bool, events: seq<bool>, poll: Poll, reset: Reset)

  /** `Restart` is another call of reset after one has returned. */
  datatype Step = PollStep | ResetStep | Restart | Plug(present: bool) | NeighbourReads(n: nat) | NeighbourWrites(n: nat)

  function Do(s: State, step: Step): State {
    match step
    case PollStep => DoPoll(s)
    case ResetStep => DoReset(s)
    case Restart => if s.reset.Finished? then s.(reset := NotStarted) else s
    case Plug(b) => s.(present := b)
    case NeighbourReads(n) => s.(line := ReadByNeighbour(s.line, n))
    case NeighbourWrites(n) => s.(line := WrittenByNeighbour(s.line, n))
  }

  /** One access of the polling round, or its report: a difference from the last list is an event. */
  function DoPoll(s: State): State {
    match s.poll
    case Unread => s.(poll := Raw(s.present))
    case Raw(present) =>
      if !present then s.(poll := Decided(false))
      else if Judge(s.flag).write == NO_WRITE then s.(poll := Decided(Judge(s.flag).present))
      else s.(poll := Writing(Judge(s.flag)))
    case Writing(v) => s.(flag := v.write, poll := Decided(v.present))
    case Decided(present) =>
      s.(poll := Unread, shown := present, events := if present == s.shown then s.events else s.events + [present])
  }

  /** One access of Sfp.reset. */
  function DoReset(s: State): State {
    match s.reset
    case NotStarted => s.(reset := if s.present then Mark else Finished(false))
    case Mark => s.(reset := LowPower, flag := 1)
    case LowPower => s.(reset := Hold)
    case Hold => s.(reset := Look(0), line := Write(s.line, false))
    case Look(n) => s.(reset := if s.flag == 2 then Release else if n == MAX_LOOKS then Finished(false) else Look(n + 1))
    case Release => s.(reset := MarkDone, line := Write(s.line, true))
    case MarkDone => s.(reset := Finished(true), flag := 3)
    case Finished(_) => s
  }

  ghost predicate IsRun(ss: seq<State>, steps: seq<Step>) {
    |ss| == |steps| + 1 && forall i :: 0 <= i < |steps| ==> ss[i + 1] == Do(ss[i], steps[i])
  }

  /** The poller has read a finished reset's 3 and is about to clear the flag. */
  predicate AboutToClear(s: State) {
    s.poll == Writing(Verdict(true, 0))
  }

  /** The poller writes only what it judged. */
  predicate PollOk(s: State) {
    s.poll.Writing? ==> s.poll.verdict == Verdict(false, 2) || s.poll.verdict == Verdict(true, 0)
  }

  /** What the poller holds of the port: the status it has decided on and will report, or else the one it last reported. */
  function Standing(s: State): bool {
    match s.poll
    case Unread => s.shown
    case Raw(present) => present && s.shown
    case Writing(v) => v.present
    case Decided(present) => present
  }

  // ---------------------------------------------------------------- any number of resets

  /** A 2 in the flag means that the port stands as absent with the poller, and a reset goes by nothing else. */
  predicate Guarded(s: State) {
    && PollOk(s)
    && (s.flag == 2 ==> !Standing(s) && !s.poll.Writing?)
    && (s.reset == Release || s.reset == MarkDone ==> s.flag == 2)
    && (s.reset.Look? || s.reset == Release ==> !s.line.want)
  }

  lemma StepKeepsGuarded(s: State, step: Step)
    requires Guarded(s)
    ensures Guarded(Do(s, step))
  {
  }

  /**
   In every run, with any number of resets one after the other, the module plugged
   and pulled at will, and neighbours at work: the port's resets keep the line held
   until the poller has judged the port absent, and let it go only while the port
   stands as absent.
   */
  lemma {:induction false} ReleasedOnlyWhenAbsent(ss: seq<State>, steps: seq<Step>, i: nat)
    requires IsRun(ss, steps) && Guarded(ss[0]) && i < |ss|
    ensures Guarded(ss[i])
    ensures ss[i].reset == Release ==> !ss[i].line.want && !Standing(ss[i])
  {
    if i > 0 {
      ReleasedOnlyWhenAbsent(ss, steps, i - 1);
      StepKeepsGuarded(ss[i - 1], steps[i - 1]);
    }
  }

  // ---------------------------------------------------------------- the line itself

  /** The line is as this port's resets last wrote it. */
  predicate Obeys(s: State) {
    s.line.value == s.line.want
  }

  /** And whatever a neighbour has read since that write is what was written. */
  predicate FreshCopies(s: State) {
    Obeys(s) && forall n :: n in s.line.copies && n !in s.line.stale ==> s.line.copies[n] == s.line.want
  }

  /** A neighbour that read the register before this port's last write puts another value back. */
  predicate Clobbers(s: State, step: Step) {
    step.NeighbourWrites? && step.n in s.line.stale && step.n in s.line.copies && s.line.copies[step.n] != s.line.want
  }

  lemma StepObeysIff(s: State, step: Step)
    requires FreshCopies(s)
    ensures Obeys(Do(s, step)) <==> !Clobbers(s, step)
    ensures FreshCopies(Do(s, step)) <==> !Clobbers(s, step)
  {
  }

  predicate AlwaysObeys(ss: seq<State>, i: nat)
    requires i < |ss|
  {
    forall j :: 0 <= j <= i ==> Obeys(ss[j])
  }

  predicate NeverClobbered(ss: seq<State>, steps: seq<Step>, i: nat)
    requires i <= |steps| < |ss|
  {
    forall j :: 0 <= j < i ==> !Clobbers(ss[j], steps[j])
  }

  /**
   The line is what the port's resets made it, at every moment of a run, if and only
   if no neighbour that read the register before the port's last write ever puts
   another value back.
   */
  lemma {:induction false} LineObeysIff(ss: seq<State>, steps: seq<Step>, i: nat)
    requires IsRun(ss, steps) && i < |ss| && FreshCopies(ss[0])
    ensures AlwaysObeys(ss, i) <==> NeverClobbered(ss, steps, i)
    ensures NeverClobbered(ss, steps, i) ==> FreshCopies(ss[i])
  {
    if i > 0 {
      LineObeysIff(ss, steps, i - 1);
      if FreshCopies(ss[i - 1]) { StepObeysIff(ss[i - 1], steps[i - 1]); }
      assert AlwaysObeys(ss, i) <==> AlwaysObeys(ss, i - 1) && Obeys(ss[i]);
      assert NeverClobbered(ss, steps, i) <==> NeverClobbered(ss, steps, i - 1) && !Clobbers(ss[i - 1], steps[i - 1]);
    }
  }

  /** So while no neighbour clobbers it, the line itself is held until the port stands as absent, and not let go otherwise. */
  lemma LineReleasedOnlyWhenAbsent(ss: seq<State>, steps: seq<Step>, i: nat)
    requires IsRun(ss, steps) && Guarded(ss[0]) && FreshCopies(ss[0]) && i < |ss|
    requires NeverClobbered(ss, steps, i)
    ensures ss[i].reset.Look? || ss[i].reset == Release ==> !ss[i].line.value
    ensures ss[i].reset == Release ==> !Standing(ss[i])
  {
    ReleasedOnlyWhenAbsent(ss, steps, i);
    LineObeysIff(ss, steps, i);
  }

  // ---------------------------------------------------------------- one reset of a module that stays present

  /** A reset's mark has just been written, and the poller is not about to wipe it out. */
  predicate Marked(s: State) {
    s.present && s.reset == LowPower && s.flag == 1 && PollOk(s) && !AboutToClear(s)
  }

  /** From here to the end of the reset: the module stays, and no other reset is called. */
  ghost predicate IsReset(ss: seq<State>, steps: seq<Step>) {
    IsRun(ss, steps) && Marked(ss[0]) && forall i :: 0 <= i < |steps| ==> steps[i] != Plug(false) && steps[i] != Restart
  }

  /** The events still to come if the reset completes: the report the poller owes, the removal, the insertion. */
  function ToCome(s: State): seq<bool> {
    (if Standing(s) != s.shown then [Standing(s)] else []) +
    if s.flag == 1 then (if Standing(s) then [false, true] else [true])
    else if s.flag == 2 || (s.flag == 3 && !AboutToClear(s)) then [true]
    else []
  }

  /** Which events that is depends on what had been shown when the mark was written, and on nothing else but a report still owed. */
  lemma EventsClassified(s: State)
    requires Marked(s)
    ensures ToCome(s) == [false, true] <==> s.shown
    ensures ToCome(s) == [true] <==> !s.shown && !Standing(s)
    ensures ToCome(s) == [true, false, true] <==> !s.shown && Standing(s)
  {
  }

  /** The mark is up and unread, or being answered, or answered. */
  predicate Awaited(s: State) {
    (s.flag == 1 && !AboutToClear(s)) || Answered(s)
  }

  predicate Answered(s: State) {
    s.flag == 2 && !Standing(s) && !s.poll.Writing?
  }

  /** The reset is done; the poller has yet to notice, is noticing, or has judged the port present. */
  predicate Ending(s: State) {
    || (s.flag == 3 && (AboutToClear(s) || (!Standing(s) && !s.poll.Writing?)))
    || (s.flag == 0 && Standing(s) && !s.poll.Writing?)
  }

  predicate Inv(s: State) {
    && s.present && PollOk(s)
    && match s.reset
       case NotStarted => false
       case Mark => false
       case LowPower => Awaited(s)
       case Hold => Awaited(s)
       case Look(n) => !s.line.want && n <= MAX_LOOKS && Awaited(s)
       case Release => !s.line.want && Answered(s)
       case MarkDone => s.line.want && Answered(s)
       case Finished(ok) => if ok then s.line.want && Ending(s) else !s.line.want && Awaited(s)
  }

  lemma PollKeepsInv(s: State)
    requires Inv(s)
    ensures Inv(DoPoll(s)) && DoPoll(s).events + ToCome(DoPoll(s)) == s.events + ToCome(s)
  {
  }

  /** Every step keeps the invariant, and moves events from those to come to those reported. */
  lemma StepKeepsInv(s: State, step: Step)
    requires Inv(s) && step != Plug(false) && step != Restart
    ensures Inv(Do(s, step)) && Do(s, step).events + ToCome(Do(s, step)) == s.events + ToCome(s)
  {
    if step == PollStep { PollKeepsInv(s); }
  }

  lemma {:induction false} RunKeepsInv(ss: seq<State>, steps: seq<Step>, i: nat)
    requires IsReset(ss, steps) && i < |ss|
    ensures Inv(ss[i]) && ss[i].events + ToCome(ss[i]) == ss[0].events + ToCome(ss[0])
  {
    if i > 0 {
      RunKeepsInv(ss, steps, i - 1);
      StepKeepsInv(ss[i - 1], steps[i - 1]);
    }
  }

  /**
   A reset of a module that stays, marked in any state in which the mark is not
   lost, against any interleaving with the poller and with neighbours: the reset lets
   the line go only while the port stands as absent; what is reported is, at every
   moment, a beginning of the events to come at the mark; a completed reset has
   released the line, one that gives up has left it held; and the line itself is so
   all along if and only if no neighbour clobbers it.
   */
  lemma HandshakeIsSafe(ss: seq<State>, steps: seq<Step>, i: nat)
    requires IsReset(ss, steps) && i < |ss|
    ensures ss[i].reset == Release ==> !ss[i].line.want && !Standing(ss[i])
    ensures ss[0].events <= ss[i].events + ToCome(ss[i]) && ss[i].events <= ss[0].events + ToCome(ss[0])
    ensures ss[i].reset == Finished(true) ==> ss[i].line.want
    ensures ss[i].reset == Finished(false) ==> !ss[i].line.want
    ensures FreshCopies(ss[0]) ==>
              (AlwaysObeys(ss, i) <==> NeverClobbered(ss, steps, i))
  {
    RunKeepsInv(ss, steps, i);
    if FreshCopies(ss[0]) { LineObeysIff(ss, steps, i); }
  }

  /**
   Once a completed reset has been cleared and reported, the poller has reported
   since the mark exactly one removal and then one insertion if and only if it had
   shown the port present; otherwise the insertion alone, or, if it was about to
   show the port, insertion, removal and insertion.
   */
  lemma OneRemovalOneInsertion(ss: seq<State>, steps: seq<Step>, i: nat)
    requires IsReset(ss, steps) && i < |ss|
    requires ss[i].reset == Finished(true) && ss[i].flag == 0 && ss[i].poll == Unread
    ensures ss[i].shown && ss[i].events == ss[0].events + ToCome(ss[0])
    ensures ss[i].events == ss[0].events + [false, true] <==> ss[0].shown
  {
    RunKeepsInv(ss, steps, i);
    EventsClassified(ss[0]);
    if ss[0].events + ToCome(ss[0]) == ss[0].events + [false, true] {
      assert (ss[0].events + ToCome(ss[0]))[|ss[0].events|..] == ToCome(ss[0]);
      assert (ss[0].events + [false, true])[|ss[0].events|..] == [false, true];
    }
  }

  /** And it gets there: two more rounds of the poller after a completed reset are enough, wherever the poller was. */
  lemma TwoRoundsReport(s: State) returns (n: nat)
    requires Inv(s) && s.reset == Finished(true)
    ensures n <= 8 && Iter(DoPoll, n, s).poll == Unread && Iter(DoPoll, n, s).flag == 0
    ensures Iter(DoPoll, n, s).events == s.events + ToCome(s) && Iter(DoPoll, n, s).shown
  {
    var t := s;
    n := 0;
    while t.poll != Unread || t.flag != 0
      invariant Inv(t) && t.reset == Finished(true) && t == Iter(DoPoll, n, s)
      invariant t.events + ToCome(t) == s.events + ToCome(s)
      invariant n + Left(t) <= 8
      decreases Left(t)
    {
      StepKeepsInv(t, PollStep);
      t := DoPoll(t);
      n := n + 1;
    }
  }

  /** Poller steps left before a completed reset is cleared and reported. */
  function Left(s: State): nat {
    if s.flag == 0 then (match s.poll case Unread => 0 case Raw(_) => 2 case Writing(_) => 2 case Decided(_) => 1)
    else (match s.poll case Unread => 4 case Raw(present) => if present then 3 else 6 case Writing(_) => 2 case Decided(_) => 5)
  }

  // ---------------------------------------------------------------- when a reset gives up

  /** How many looks the reset that is under way has taken in vain. */
  function VainLooks(ss: seq<State>, steps: seq<Step>, j: nat): nat
    requires |ss| == |steps| + 1 && j < |ss|
    decreases j
  {
    if j == 0 || !ss[j].reset.Look? then 0
    else if steps[j - 1] != ResetStep then VainLooks(ss, steps, j - 1)
    else if ss[j - 1].reset.Look? then VainLooks(ss, steps, j - 1) + 1
    else 0
  }

  lemma {:induction false} LooksAreCounted(ss: seq<State>, steps: seq<Step>, j: nat)
    requires IsRun(ss, steps) && j < |ss| && !ss[0].reset.Look? && ss[j].reset.Look?
    ensures ss[j].reset.looks == VainLooks(ss, steps, j) <= 8
    decreases j
  {
    if ss[j - 1].reset.Look? { LooksAreCounted(ss, steps, j - 1); }
  }

  /**
   A reset comes to its end in three ways.  With no module there it fails at once and
   touches nothing.  It fails when the ninth look finds no 2.  Otherwise a look found
   a 2, and it releases the line, writes its 3, and succeeds.
   */
  lemma EndsIff(ss: seq<State>, steps: seq<Step>, j: nat)
    requires IsRun(ss, steps) && j < |steps| && !ss[0].reset.Look? && steps[j] == ResetStep && !ss[j].reset.Finished?
    ensures var before, after := ss[j], ss[j + 1];
      && (after.reset == Finished(false) <==>
            (before.reset == NotStarted && !before.present) || (before.reset.Look? && before.flag != 2 && VainLooks(ss, steps, j) == 8))
      && (after.reset == Release <==> before.reset.Look? && before.flag == 2)
      && (after.reset == Finished(true) <==> before.reset == MarkDone)
      && (before.reset == NotStarted && !before.present ==> after == before.(reset := Finished(false)))
      && (after.reset == Finished(true) ==> after.flag == 3)
  {
    if ss[j].reset.Look? { LooksAreCounted(ss, steps, j); }
  }

  // ---------------------------------------------------------------- the reset that gets lost

  /** The reset's mark has been, or is going to be, wiped out: it can only give up. */
  predicate Lost(s: State) {
    && (s.reset == LowPower || s.reset == Hold || s.reset.Look? || s.reset == Finished(false))
    && ((s.flag == 1 && AboutToClear(s)) || (s.flag == 0 && !s.poll.Writing?))
  }

  /**
   A mark written while the poller is about to clear an earlier reset is lost: in
   every continuation, whatever is plugged or pulled, the reset never releases the
   line and can end only in failure.
   */
  lemma {:induction false} LostForGood(ss: seq<State>, steps: seq<Step>, i: nat)
    requires IsRun(ss, steps) && (forall k :: 0 <= k < |steps| ==> steps[k] != Restart)
    requires i < |ss| && Lost(ss[0])
    ensures Lost(ss[i])
  {
    if i > 0 { LostForGood(ss, steps, i - 1); }
  }

  /** From the mark: of all the places the poller can be, and whatever the flag was, only that one loses it; from any other the poller answers. */
  lemma MarkLostIff(s: State)
    requires s.present && s.reset == Mark && PollOk(s)
    ensures AboutToClear(s) <==> Lost(Do(s, ResetStep))
    ensures !AboutToClear(s) <==> Marked(Do(s, ResetStep))
    ensures !AboutToClear(s) ==> exists n: nat :: Iter(DoPoll, n, Do(s, ResetStep)).flag == 2
  {
    var t := Do(s, ResetStep);
    if !AboutToClear(s) {
      var n := match s.poll case Unread => 3 case Raw(present) => (if present then 2 else 5) case Writing(_) => 1 case Decided(_) => 4;
      assert Iter(DoPoll, 1, t) == DoPoll(t) && Iter(DoPoll, 2, t) == DoPoll(DoPoll(t));
      assert Iter(DoPoll, 3, t) == DoPoll(DoPoll(DoPoll(t))) && Iter(DoPoll, 4, t) == DoPoll(DoPoll(DoPoll(DoPoll(t))));
      assert Iter(DoPoll, 5, t) == DoPoll(DoPoll(DoPoll(DoPoll(DoPoll(t)))));
      assert Iter(DoPoll, n, t).flag == 2;
    }
  }

  // ---------------------------------------------------------------- it happens

  lemma AfterFour(s: State, a: Step, b: Step, c: Step, d: Step)
    ensures Fold(Do, s, [a, b, c, d]) == Do(Do(Do(Do(s, a), b), c), d)
  {
    FoldFour(Do, s, [a, b, c, d]);
  }

  /** At rest: no reset under way or unnoticed, the poller between two rounds. */
  predicate AtRest(s: State) {
    s.present && s.flag == 0 && s.line == Line(true, map[], true, {}) && s.poll == Unread && s.reset == NotStarted
  }

  /** Four resetting steps up to the first look, a round of the poller, four more up to the next round, and the next call. */
  const FIRST: seq<Step> := [ResetStep, ResetStep, ResetStep, ResetStep]
  const ROUND: seq<Step> := [PollStep, PollStep, PollStep, PollStep]
  const FINISH: seq<Step> := [ResetStep, ResetStep, ResetStep, PollStep]
  const AGAIN: seq<Step> := [PollStep, Restart, ResetStep, ResetStep]

  /** A reset up to its first look. */
  function FirstLook(s: State): State {
    s.(reset := Look(0), flag := 1, line := Line(false, map[], false, {}))
  }

  lemma UpToFirstLook(s: State)
    requires AtRest(s)
    ensures Fold(Do, s, FIRST) == FirstLook(s)
  {
    AfterFour(s, ResetStep, ResetStep, ResetStep, ResetStep);
  }

  /** And a round of the poller. */
  lemma HalfWay(s: State)
    requires AtRest(s)
    ensures Fold(Do, s, FIRST + ROUND) ==
            FirstLook(s).(flag := 2, shown := false, events := if s.shown then s.events + [false] else s.events)
  {
    UpToFirstLook(s);
    AfterFour(FirstLook(s), PollStep, PollStep, PollStep, PollStep);
    FoldAppend(Do, s, FIRST, ROUND);
  }

  /** From rest, a reset called again as soon as it has returned can be lost. */
  lemma LostResetHappens(s: State)
    requires AtRest(s)
    ensures Guarded(s) && Lost(Fold(Do, s, FIRST + ROUND + FINISH + AGAIN))
  {
    HalfWay(s);
    var t := Fold(Do, s, FIRST + ROUND);
    AfterFour(t, ResetStep, ResetStep, ResetStep, PollStep);
    var u := Fold(Do, t, FINISH);
    assert u == t.(reset := Finished(true), line := Line(true, map[], true, {}), flag := 3, poll := Raw(true));
    AfterFour(u, PollStep, Restart, ResetStep, ResetStep);
    FoldAppend(Do, s, FIRST + ROUND, FINISH);
    FoldAppend(Do, s, FIRST + ROUND + FINISH, AGAIN);
  }

  /** The end of a reset and the next call, up to its first look. */
  const UNREAD: seq<Step> := [ResetStep, ResetStep, ResetStep, Restart]
  const REMARK: seq<Step> := [ResetStep, ResetStep, ResetStep, ResetStep]

  lemma CalledAgain(s: State)
    requires AtRest(s)
    ensures Fold(Do, s, FIRST + ROUND + UNREAD) ==
            Fold(Do, s, FIRST + ROUND).(reset := NotStarted, line := Line(true, map[], true, {}), flag := 3)
  {
    HalfWay(s);
    AfterFour(Fold(Do, s, FIRST + ROUND), ResetStep, ResetStep, ResetStep, Restart);
    FoldAppend(Do, s, FIRST + ROUND, UNREAD);
  }

  /** From rest, two resets can be reported as one: the second is marked before the poller has read the first one's 3. */
  lemma SecondResetCanGoUnreported(s: State)
    requires AtRest(s)
    ensures var t := Fold(Do, s, FIRST + ROUND + UNREAD + REMARK);
            t.reset == Look(0) && Inv(t) && t.events + ToCome(t) == (if s.shown then s.events + [false] else s.events) + [true]
  {
    HalfWay(s);
    CalledAgain(s);
    var u := Fold(Do, s, FIRST + ROUND + UNREAD);
    AfterFour(u, ResetStep, ResetStep, ResetStep, ResetStep);
    FoldAppend(Do, s, FIRST + ROUND + UNREAD, REMARK);
  }

  lemma AfterOne(s: State, step: Step)
    ensures Fold(Do, s, [step]) == Do(s, step)
  {
    assert [step][..0] == [];
  }

  /**
   A clobbered line is released too early: from rest, a neighbour that has read the
   register before the reset began lets the line go while the mark is unread and the
   port stands as it did.
   */
  lemma EarlyReleaseHappens(s: State, n: nat)
    requires AtRest(s)
    ensures var t := Fold(Do, s, [NeighbourReads(n)] + FIRST + [NeighbourWrites(n)]);
            t.reset == Look(0) && t.flag == 1 && Standing(t) == s.shown && t.line.value && !t.line.want
  {
    AfterOne(s, NeighbourReads(n));
    var t := Do(s, NeighbourReads(n));
    AfterFour(t, ResetStep, ResetStep, ResetStep, ResetStep);
    var u := Fold(Do, t, FIRST);
    FoldAppend(Do, s, [NeighbourReads(n)], FIRST);
    AfterOne(u, NeighbourWrites(n));
    FoldAppend(Do, s, [NeighbourReads(n)] + FIRST, [NeighbourWrites(n)]);
  }

  /** Or held for good: from rest, a neighbour that has read the register before the release takes it back after the reset has returned success. */
  lemma HeldAfterSuccessHappens(s: State, n: nat)
    requires AtRest(s)
    ensures var t := Fold(Do, s, FIRST + ROUND + [NeighbourReads(n), ResetStep, ResetStep, ResetStep] + [NeighbourWrites(n)]);
            t.reset == Finished(true) && !t.line.value && t.line.want
  {
    HalfWay(s);
    var t := Fold(Do, s, FIRST + ROUND);
    AfterFour(t, NeighbourReads(n), ResetStep, ResetStep, ResetStep);
    var u := Fold(Do, t, [NeighbourReads(n), ResetStep, ResetStep, ResetStep]);
    FoldAppend(Do, s, FIRST + ROUND, [NeighbourReads(n), ResetStep, ResetStep, ResetStep]);
    AfterOne(u, NeighbourWrites(n));
    FoldAppend(Do, s, FIRST + ROUND + [NeighbourReads(n), ResetStep, ResetStep, ResetStep], [NeighbourWrites(n)]);
  }
}
