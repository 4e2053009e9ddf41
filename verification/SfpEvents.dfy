/**
 The presence poller of the 7220 D4: ixr7220d4/sonic_platform/sfp_event.py over
 the flags of ixr7220d4/modules/d4_cpld1.c, one polling round after another, and
 the change dictionaries it reports.
 */
module SfpEvents {
  import opened PortLists
  import opened ResetHandshake

  const PORTS: nat := 36

  /** How check_sfp_status comes back; it may also still be polling when the rounds at hand are used up. */
  datatype Outcome = Changed(change: Changes) | Unchanged | Refused | StillPolling

  /** A list with reported changes applied to it. */
  function Apply(list: seq<bool>, ch: Changes): seq<bool>
    requires |list| == PORTS
  {
    seq(PORTS, i requires 0 <= i < PORTS => if i + 1 in ch then ch[i + 1] else list[i])
  }

  /** The status of a port in one round: there, and not in the middle of a reset. */
  function StatusOf(present: bool, flag: int): bool {
    present && Judge(flag).present
  }

  /** Its flag after the round, if it was `flag` when the poller read it and `now` when the poller might write. */
  function FlagAfter(present: bool, flag: int, now: int): int {
    if present && Judge(flag).write != NO_WRITE then Judge(flag).write else now
  }

  /** What one round over all ports makes of the presence files and the flags. */
  function StatusList(present: seq<bool>, flags: seq<int>): (r: seq<bool>)
    requires |present| == |flags| == PORTS
    ensures |r| == PORTS
  {
    seq(PORTS, i requires 0 <= i < PORTS => StatusOf(present[i], flags[i]))
  }

  /** The flags as resets' writes leave them; ports count from 1. */
  function Overwritten(flags: seq<int>, writes: map<int, int>): (r: seq<int>)
    requires |flags| == PORTS
    ensures |r| == PORTS
  {
    seq(PORTS, i requires 0 <= i < PORTS => if i + 1 in writes then writes[i + 1] else flags[i])
  }

  function FlagList(present: seq<bool>, flags: seq<int>, during: map<int, int>): (r: seq<int>)
    requires |present| == |flags| == PORTS
    ensures |r| == PORTS
  {
    seq(PORTS, i requires 0 <= i < PORTS => FlagAfter(present[i], flags[i], Overwritten(flags, during)[i]))
  }

  /**
   One round: what the presence files read, the flags that resets write before the
   poller reads them, those that resets write between the poller's read of a flag
   and its own write, and the seconds left after the round.
   */
  datatype Round = Round(present: seq<bool>, before: map<int, int>, during: map<int, int>, remaining: real)

  /** What a round makes of the flags, and the list it finds. */
  function RoundFlags(flags: seq<int>, round: Round): (r: seq<int>)
    requires |round.present| == |flags| == PORTS
    ensures |r| == PORTS
  {
    FlagList(round.present, Overwritten(flags, round.before), round.during)
  }

  function RoundList(flags: seq<int>, round: Round): (r: seq<bool>)
    requires |round.present| == |flags| == PORTS
    ensures |r| == PORTS
  {
    StatusList(round.present, Overwritten(flags, round.before))
  }

  predicate AllPorts(rounds: seq<Round>) {
    forall k :: 0 <= k < |rounds| ==> |rounds[k].present| == PORTS
  }

  /** The flags after k rounds, and the list the round after them finds. */
  function FlagsAfter(rounds: seq<Round>, flags: seq<int>, k: nat): (r: seq<int>)
    requires k <= |rounds| && |flags| == PORTS && AllPorts(rounds)
    ensures |r| == PORTS
  {
    if k == 0 then flags
    else RoundFlags(FlagsAfter(rounds, flags, k - 1), rounds[k - 1])
  }

  function ListAt(rounds: seq<Round>, flags: seq<int>, k: nat): (r: seq<bool>)
    requires k < |rounds| && |flags| == PORTS && AllPorts(rounds)
    ensures |r| == PORTS
  {
    RoundList(FlagsAfter(rounds, flags, k), rounds[k])
  }

  /** The first k rounds find this list. */
  predicate AllFind(rounds: seq<Round>, flags: seq<int>, k: nat, list: seq<bool>)
    requires k <= |rounds| && |flags| == PORTS && AllPorts(rounds)
  {
    forall j :: 0 <= j < k ==> ListAt(rounds, flags, j) == list
  }

  lemma OneMoreFinds(rounds: seq<Round>, flags: seq<int>, k: nat, list: seq<bool>)
    requires k < |rounds| && |flags| == PORTS && AllPorts(rounds)
    ensures AllFind(rounds, flags, k + 1, list) <==> AllFind(rounds, flags, k, list) && ListAt(rounds, flags, k) == list
  {
  }

  /** A write of this port's flag by a reset. */
  function Written(s: State, flag: int): State {
    s.(flag := flag)
  }

  /** One round does to a port what the steps of the interleaved poller do, with a reset's write between its read and its write. */
  lemma RoundIsFourSteps(s: State, now: int)
    requires s.poll == Unread
    ensures var read := DoPoll(DoPoll(s));
            var t := if read.poll.Writing? then DoPoll(Written(read, now)) else Written(read, now);
            t.poll == Decided(StatusOf(s.present, s.flag)) && t.flag == FlagAfter(s.present, s.flag, now)
  {
  }

  class SfpEvent {
    var modprsList: seq<bool>

    constructor (initial: seq<bool>)
      requires |initial| == PORTS
      ensures modprsList == initial
    {
      modprsList := initial;
    }

    /**
     _get_transceiver_status: reads every port's presence, then takes every present
     port's reset flag through the handshake.  `during` is what resets write to a flag
     after it has been read.
     */
    method GetTransceiverStatus(present: seq<bool>, resetList: array<int>, during: map<int, int>) returns (status: seq<bool>)
      requires |present| == PORTS && resetList.Length == PORTS
      modifies resetList
      ensures status == StatusList(present, old(resetList[..]))
      ensures resetList[..] == FlagList(present, old(resetList[..]), during)
    {
      var regs: seq<bool> := [];
      for p := 0 to PORTS
        invariant regs == present[..p]
      {
        regs := regs + [present[p]];
      }
      status := regs;
      for p := 0 to PORTS
        invariant |status| == PORTS
        invariant forall i :: 0 <= i < p ==> status[i] == StatusOf(present[i], old(resetList[i]))
        invariant forall i :: 0 <= i < p ==>
                    resetList[i] == FlagAfter(present[i], old(resetList[i]), Overwritten(old(resetList[..]), during)[i])
        invariant forall i :: p <= i < PORTS ==> status[i] == present[i] && resetList[i] == old(resetList[i])
      {
        var resetStatus := resetList[p];
        if p + 1 in during { resetList[p] := during[p + 1]; }
        if !status[p] { continue; }
        if resetStatus == 1 {
          status := status[p := false];
          resetList[p] := 2;
        } else if resetStatus == 2 {
          status := status[p := false];
        } else if resetStatus == 3 {
          status := status[p := true];
          resetList[p] := 0;
        }
      }
    }

    /** Lines 100-105: every port that differs goes into the caller's dictionary. */
    method ReportChanges(portChange: Changes, portStatus: seq<bool>) returns (change: Changes)
      requires |modprsList| == |portStatus| == PORTS
      ensures change == portChange + Diff(modprsList, portStatus, PORTS)
    {
      change := portChange;
      for i := 0 to PORTS
        invariant change == Noted(portChange, modprsList, portStatus, i)
      {
        if portStatus[i] != modprsList[i] { change := change[i + 1 := portStatus[i]]; }
      }
      NotedIsDiff(portChange, modprsList, portStatus, PORTS);
    }

    /** What the resets write before a round. */
    static method WriteFlags(resetList: array<int>, writes: map<int, int>)
      requires resetList.Length == PORTS
      modifies resetList
      ensures resetList[..] == Overwritten(old(resetList[..]), writes)
    {
      for i := 0 to PORTS
        invariant forall j :: 0 <= j < i ==> resetList[j] == if j + 1 in writes then writes[j + 1] else old(resetList[j])
        invariant forall j :: i <= j < PORTS ==> resetList[j] == old(resetList[j])
      {
        if i + 1 in writes { resetList[i] := writes[i + 1]; }
      }
    }

    /** The round after k others, with the resets' writes. */
    method PollRound(rounds: seq<Round>, ghost flags: seq<int>, k: nat, resetList: array<int>) returns (status: seq<bool>)
      requires k < |rounds| && AllPorts(rounds) && |flags| == resetList.Length == PORTS && resetList[..] == FlagsAfter(rounds, flags, k)
      modifies resetList
      ensures status == ListAt(rounds, flags, k) && resetList[..] == FlagsAfter(rounds, flags, k + 1)
    {
      WriteFlags(resetList, rounds[k].before);
      status := GetTransceiverStatus(rounds[k].present, resetList, rounds[k].during);
    }

    /**
     check_sfp_status.  `rounds` are the rounds to come, with the clock's word and
     whatever resets write before and during each; `k` of them are polled.  It reports at the
     first round whose list differs.
     */
    method CheckSfpStatus(portChange: Changes, timeout: int, rounds: seq<Round>, resetList: array<int>)
      returns (r: Outcome, ghost k: nat)
      requires |modprsList| == PORTS && resetList.Length == PORTS && AllPorts(rounds)
      modifies this, resetList
      ensures |modprsList| == PORTS && k <= |rounds|
      ensures resetList[..] == FlagsAfter(rounds, old(resetList[..]), k)
      ensures AllFind(rounds, old(resetList[..]), if r.Changed? && k > 0 then k - 1 else k, old(modprsList))
      ensures forall j :: 0 <= j < k - 1 && timeout > 0 ==> rounds[j].remaining >= 1.0
      ensures r.Refused? <==> timeout < 0
      ensures r.Changed? ==>
                && k > 0 && modprsList == ListAt(rounds, old(resetList[..]), k - 1) != old(modprsList)
                && r.change == portChange + Diff(old(modprsList), modprsList, PORTS)
      ensures !r.Changed? ==> modprsList == old(modprsList)
      ensures r.Unchanged? ==> timeout > 0 && k > 0 && rounds[k - 1].remaining < 1.0
      ensures r.StillPolling? ==> k == |rounds| && forall j :: 0 <= j < k && timeout > 0 ==> rounds[j].remaining >= 1.0
    {
      var forever := false;
      if timeout == 0 { forever := true; }
      else if timeout < 0 { return Refused, 0; }
      ghost var flags := resetList[..];
      k := 0;
      for i := 0 to |rounds|
        invariant k == i && modprsList == old(modprsList)
        invariant resetList[..] == FlagsAfter(rounds, flags, i)
        invariant AllFind(rounds, flags, i, modprsList)
        invariant forall j :: 0 <= j < i && !forever ==> rounds[j].remaining >= 1.0
      {
        var portStatus := PollRound(rounds, flags, i, resetList);
        k := i + 1;
        OneMoreFinds(rounds, flags, i, modprsList);
        if portStatus != modprsList {
          var change := ReportChanges(portChange, portStatus);
          modprsList := portStatus;
          return Changed(change), k;
        }
        if !forever && rounds[i].remaining < 1.0 { return Unchanged, k; }
      }
      return StillPolling, k;
    }
  }

  // ---------------------------------------------------------------- replay

  /** What a call reports, applied to the old list, gives the new one, exactly when no leftover entry of the caller's dictionary disagrees. */
  lemma ReplayIff(a: seq<bool>, b: seq<bool>, portChange: Changes)
    requires |a| == |b| == PORTS
    ensures Apply(a, portChange + Diff(a, b, PORTS)) == b
       <==> (forall p :: p in portChange && 1 <= p <= PORTS && a[p - 1] == b[p - 1] ==> portChange[p] == b[p - 1])
  {
    var ch := portChange + Diff(a, b, PORTS);
    if Apply(a, ch) == b {
      forall p | p in portChange && 1 <= p <= PORTS && a[p - 1] == b[p - 1]
        ensures portChange[p] == b[p - 1]
      {
        assert Apply(a, ch)[p - 1] == ch[p];
      }
    }
  }

  /** The lists between calls, starting from the initial one; each call's report is the difference. */
  function Replay(initial: seq<bool>, reports: seq<Changes>): (r: seq<bool>)
    requires |initial| == PORTS
    ensures |r| == PORTS
  {
    if reports == [] then initial else Apply(Replay(initial, reports[..|reports| - 1]), reports[|reports| - 1])
  }

  /** Reports made one after the other, each the difference between the list before and the list after. */
  ghost predicate Reported(lists: seq<seq<bool>>, reports: seq<Changes>) {
    && |lists| == |reports| + 1
    && (forall k :: 0 <= k < |lists| ==> |lists[k]| == PORTS)
    && (forall k :: 0 <= k < |reports| ==> reports[k] == Diff(lists[k], lists[k + 1], PORTS))
  }

  /** Each report is of a real change. */
  ghost predicate AllChange(lists: seq<seq<bool>>) {
    forall k :: 0 <= k < |lists| - 1 ==> lists[k] != lists[k + 1]
  }

  lemma ReportedMore(lists: seq<seq<bool>>, reports: seq<Changes>, next: seq<bool>, change: Changes)
    requires Reported(lists, reports) && AllChange(lists) && |next| == PORTS && next != lists[|reports|]
    requires change == map[] + Diff(lists[|reports|], next, PORTS)
    ensures Reported(lists + [next], reports + [change]) && AllChange(lists + [next])
  {
    assert change == Diff(lists[|reports|], next, PORTS);
  }

  /** Folding all reports over the initial list reproduces the current list, after any run. */
  lemma {:induction false} ReplayReproduces(lists: seq<seq<bool>>, reports: seq<Changes>)
    requires Reported(lists, reports)
    ensures Replay(lists[0], reports) == lists[|reports|]
  {
    if reports != [] {
      var n := |reports| - 1;
      ReplayReproduces(lists[..n + 1], reports[..n]);
      ReplayIff(lists[n], lists[n + 1], map[]);
      assert map[] + Diff(lists[n], lists[n + 1], PORTS) == Diff(lists[n], lists[n + 1], PORTS);
    }
  }

  /** The events of one port, in order. */
  function EventsOf(reports: seq<Changes>, p: int): seq<bool> {
    if reports == [] then []
    else EventsOf(reports[..|reports| - 1], p) + if p in reports[|reports| - 1] then [reports[|reports| - 1][p]] else []
  }

  /** Strictly alternating events that lead from one presence to another. */
  predicate Alternates(es: seq<bool>, start: bool, end: bool) {
    && (forall k :: 0 <= k < |es| - 1 ==> es[k] != es[k + 1])
    && (es != [] ==> es[0] != start)
    && end == if es == [] then start else es[|es| - 1]
  }

  lemma OneEventMore(es: seq<bool>, start: bool, was: bool, now: bool)
    requires Alternates(es, start, was)
    ensures Alternates(if was != now then es + [now] else es, start, now)
  {
  }

  lemma LastReport(lists: seq<seq<bool>>, reports: seq<Changes>, p: int)
    requires Reported(lists, reports) && reports != [] && 1 <= p <= PORTS
    ensures var n := |reports| - 1;
            var seen, was, now := EventsOf(reports[..n], p), lists[n][p - 1], lists[n + 1][p - 1];
            EventsOf(reports, p) == if was != now then seen + [now] else seen
  {
    var n := |reports| - 1;
    assert reports[n] == Diff(lists[n], lists[n + 1], PORTS);
  }

  /** A port's events strictly alternate, from the opposite of its initial presence up to its current presence. */
  lemma {:induction false} EventsAlternate(lists: seq<seq<bool>>, reports: seq<Changes>, p: int)
    requires Reported(lists, reports) && 1 <= p <= PORTS
    ensures Alternates(EventsOf(reports, p), lists[0][p - 1], lists[|reports|][p - 1])
  {
    if reports != [] {
      var n := |reports| - 1;
      EventsAlternate(lists[..n + 1], reports[..n], p);
      LastReport(lists, reports, p);
      OneEventMore(EventsOf(reports[..n], p), lists[0][p - 1], lists[n][p - 1], lists[n + 1][p - 1]);
    }
  }

  // ---------------------------------------------------------------- the daemon's loop

  /** One call of the daemon, with the rounds that it may take. */
  datatype Call = Call(timeout: int, rounds: seq<Round>)

  /**
   get_change_event, called over and over: each call hands check_sfp_status an empty
   dictionary.  The changes reported, folded over the list at the start, are the
   list at the end, and every report is a real change.
   */
  method Watch(ev: SfpEvent, calls: seq<Call>, resetList: array<int>) returns (reports: seq<Changes>, ghost lists: seq<seq<bool>>)
    requires |ev.modprsList| == PORTS && resetList.Length == PORTS
    requires forall k :: 0 <= k < |calls| ==> AllPorts(calls[k].rounds)
    modifies ev, resetList
    ensures Reported(lists, reports) && lists[0] == old(ev.modprsList) && lists[|reports|] == ev.modprsList
    ensures AllChange(lists)
    ensures |ev.modprsList| == PORTS && Replay(old(ev.modprsList), reports) == ev.modprsList
  {
    reports, lists := [], [ev.modprsList];
    for i := 0 to |calls|
      invariant Reported(lists, reports) && lists[0] == old(ev.modprsList) && lists[|reports|] == ev.modprsList
      invariant AllChange(lists)
    {
      var r, _ := ev.CheckSfpStatus(map[], calls[i].timeout, calls[i].rounds, resetList);
      if r.Changed? {
        ReportedMore(lists, reports, ev.modprsList, r.change);
        reports, lists := reports + [r.change], lists + [ev.modprsList];
      }
    }
    ReplayReproduces(lists, reports);
  }
}
