/**
 The chassis presence poller (chassis/sonic_platform/sfp_event.py): a port whose
 presence has changed is reported, and its transceiver object forgets everything
 it cached about the module that was there before.
 */
module ChassisEvents {
  import opened ModuleLink
  import opened PageCache
  import opened ChassisSfp
  import opened PortLists

  /** How check_sfp_status comes back; it may also still be polling when the answers at hand are used up. */
  datatype Outcome = Changed(change: Changes) | Unchanged | Refused | Raised | StillPolling

  class SfpEvent {
    const numPorts: nat
    const instances: map<nat, Sfp>
    var portStatusList: seq<bool>
    // the presence array that all transceiver objects share
    var presence: set<nat>
    // the ports whose objects have had their module API built anew, in order
    var rebuilt: seq<nat>
    // everything the objects' links and caches are made of
    ghost const links: set<Link>
    ghost const cached: set<CachePage>

    /** initialize: every port absent, and one entry more than there are ports. */
    constructor (numPorts: nat, instances: map<nat, Sfp>)
      ensures this.numPorts == numPorts && this.instances == instances
      ensures portStatusList == seq(numPorts + 1, _ => false) && presence == {} && rebuilt == []
      ensures Apart() && (forall p :: p in instances ==> instances[p].Valid()) ==> Valid()
    {
      this.numPorts, this.instances := numPorts, instances;
      links := set p | p in instances :: instances[p].link;
      cached := set p, i | p in instances && 0 <= i < |instances[p].pages| :: instances[p].pages[i];
      portStatusList, presence, rebuilt := seq(numPorts + 1, _ => false), {}, [];
    }

    /** No two transceiver objects share a link or a cached page. */
    ghost predicate Apart() {
      forall p, q :: p in instances && q in instances && p != q ==>
        && instances[p].link != instances[q].link
        && forall i, j :: 0 <= i < |instances[p].pages| && 0 <= j < |instances[q].pages| ==> instances[p].pages[i] != instances[q].pages[j]
    }

    ghost predicate Valid()
      reads this`portStatusList, set p | p in instances :: instances[p], links, cached
    {
      && Apart()
      && |portStatusList| >= numPorts
      && (forall p :: p in instances ==> instances[p].link in links)
      && (forall p, i :: p in instances && 0 <= i < |instances[p].pages| ==> instances[p].pages[i] in cached)
      && forall p {:trigger Ported(p)} :: Ported(p) ==> instances[p].Valid()
    }

    predicate Ported(p: nat) {
      p in instances
    }

    /** What a port's change, if it is among the first n ports, adds to its object's trace. */
    function Swap(a: seq<bool>, b: seq<bool>, n: nat, p: nat): seq<Event> {
      if p <= n && Differs(a, b, p) then [Flushed(true)] else []
    }

    ghost function Traces(): map<nat, seq<Event>>
      requires forall p :: p in instances ==> instances[p].link in links
      reads links
    {
      map p | p in instances :: instances[p].link.trace
    }

    /** Since the traces were `before`, exactly the objects of the changed ports among the first n have been flushed. */
    ghost predicate SwapsFlushed(before: map<nat, seq<Event>>, a: seq<bool>, b: seq<bool>, n: nat)
      requires forall p :: p in instances ==> instances[p].link in links
      reads links
    {
      before.Keys == instances.Keys && forall p :: p in instances ==> instances[p].link.trace == before[p] + Swap(a, b, n, p)
    }

    /** The presence array after the first n ports' changes have been passed on to their objects. */
    function Passed(before: set<nat>, a: seq<bool>, b: seq<bool>, n: nat): set<nat>
      requires n <= |a| && n <= |b|
    {
      if n == 0 then before
      else
        Passing(Passed(before, a, b, n - 1), a, b, n - 1)
    }

    /** The objects whose API is built anew on the way: those of ports that come up absent in the array and are now present. */
    function Rebuilds(before: set<nat>, a: seq<bool>, b: seq<bool>, n: nat): seq<nat>
      requires n <= |a| && n <= |b|
    {
      if n == 0 then []
      else
        Rebuilds(before, a, b, n - 1) + Rebuilding(Passed(before, a, b, n - 1), a, b, n - 1)
    }

    /** The presence array agrees with a list on every port that has an object. */
    predicate Agrees(now: set<nat>, list: seq<bool>)
      requires |list| >= numPorts
    {
      forall p :: p in instances && 1 <= p <= numPorts ==> (p in now <==> list[p - 1])
    }

    /** What was passed on is the new list's status for the ports up to n, and the array is as it was for the others. */
    lemma {:induction false} PassedIs(before: set<nat>, a: seq<bool>, b: seq<bool>, n: nat, p: nat)
      requires n <= |a| && n <= |b| && 1 <= p
      ensures p in Passed(before, a, b, n) <==> if p <= n && p in instances && a[p - 1] != b[p - 1] then b[p - 1] else p in before
    {
      if n > 0 { PassedIs(before, a, b, n - 1, p); }
    }

    /** So an array that agreed with the old list agrees with the new one. */
    lemma AgreesAgain(before: set<nat>, a: seq<bool>, b: seq<bool>)
      requires numPorts <= |a| && numPorts <= |b| && Agrees(before, a)
      ensures Agrees(Passed(before, a, b, numPorts), b)
    {
      forall p | p in instances && 1 <= p <= numPorts
        ensures p in Passed(before, a, b, numPorts) <==> b[p - 1]
      {
        PassedIs(before, a, b, numPorts, p);
      }
    }

    predicate Ascending(s: seq<nat>) {
      forall i, j :: 0 <= i < j < |s| ==> s[i] < s[j]
    }

    lemma AscendingMore(s: seq<nat>, n: nat)
      requires Ascending(s) && forall p :: p in s ==> p < n
      ensures Ascending(s + [n])
    {
      assert forall i :: 0 <= i < |s| ==> s[i] in s;
    }

    /** Starting from an array that agreed with the old list, the API is built anew for exactly the inserted modules, in port order, each once. */
    lemma {:induction false} RebuiltIffInserted(before: set<nat>, a: seq<bool>, b: seq<bool>, n: nat)
      requires n <= numPorts <= |a| && n <= |b| && Agrees(before, a)
      ensures forall p :: p in Rebuilds(before, a, b, n) <==> 1 <= p <= n && p in instances && !a[p - 1] && b[p - 1]
      ensures Ascending(Rebuilds(before, a, b, n))
    {
      if n > 0 {
        RebuiltIffInserted(before, a, b, n - 1);
        PassedIs(before, a, b, n - 1, n);
        AscendingMore(Rebuilds(before, a, b, n - 1), n);
      }
    }

    /** One more port's change passed on. */
    lemma PassedOnMore(before: set<nat>, built: seq<nat>, a: seq<bool>, b: seq<bool>, i: nat)
      requires i < |a| && i < |b|
      ensures var now := Passed(before, a, b, i);
        && Passed(before, a, b, i + 1) == Passing(now, a, b, i)
        && built + Rebuilds(before, a, b, i + 1) == built + Rebuilds(before, a, b, i) + Rebuilding(now, a, b, i)
    {
    }

    /**
     Lines 215-228: every changed port is reported and its cache flushed hard, and
     no other is touched.  An answer with too few ports raises halfway: the ports
     it does cover have been flushed.
     */
    method Report(portChange: Changes, portList: seq<bool>) returns (raised: bool, change: Changes)
      requires Valid()
      modifies this`presence, this`rebuilt, links, cached
      ensures Valid()
      ensures raised <==> |portList| < numPorts
      ensures SwapsFlushed(old(Traces()), portStatusList, portList, Least(numPorts, |portList|))
      ensures !raised ==> change == Noted(portChange, portStatusList, portList, numPorts)
      ensures presence == Passed(old(presence), portStatusList, portList, Least(numPorts, |portList|))
      ensures rebuilt == old(rebuilt) + Rebuilds(old(presence), portStatusList, portList, Least(numPorts, |portList|))
    {
      ghost var before, there, built := Traces(), presence, rebuilt;
      var i := 0;
      change := portChange;
      while i < numPorts && i < |portList|
        invariant Valid() && i <= Least(numPorts, |portList|)
        invariant change == Noted(portChange, portStatusList, portList, i)
        invariant SwapsFlushed(before, portStatusList, portList, i)
        invariant presence == Passed(there, portStatusList, portList, i)
        invariant rebuilt == built + Rebuilds(there, portStatusList, portList, i)
      {
        PassedOnMore(there, built, portStatusList, portList, i);
        change := ReportPort(portChange, change, portList, i, before);
        i := i + 1;
      }
      raised := i < numPorts;
    }

    function Least(a: nat, b: nat): nat {
      if a < b then a else b
    }

    lemma SwapGrows(trace: seq<Event>, a: seq<bool>, b: seq<bool>, i: nat, p: nat)
      requires i < |a| && i < |b|
      ensures trace + Swap(a, b, i + 1, p) == trace + Swap(a, b, i, p) + (if p == i + 1 && b[i] != a[i] then [Flushed(true)] else [])
    {
    }

    /** One turn of the reporting loop. */
    method ReportPort(given: Changes, portChange: Changes, portList: seq<bool>, i: nat, ghost before: map<nat, seq<Event>>)
      returns (change: Changes)
      requires Valid() && i < numPorts && i < |portList|
      requires portChange == Noted(given, portStatusList, portList, i) && SwapsFlushed(before, portStatusList, portList, i)
      modifies this`presence, this`rebuilt, links, cached
      ensures Valid()
      ensures change == Noted(given, portStatusList, portList, i + 1)
      ensures SwapsFlushed(before, portStatusList, portList, i + 1)
      ensures presence == Passing(old(presence), portStatusList, portList, i)
      ensures rebuilt == old(rebuilt) + Rebuilding(old(presence), portStatusList, portList, i)
    {
      change := if portList[i] != portStatusList[i] then portChange[i + 1 := portList[i]] else portChange;
      FlushPort(portList, i, before);
    }

    /** One port's change passed on. */
    function Passing(now: set<nat>, a: seq<bool>, b: seq<bool>, i: nat): set<nat>
      requires i < |a| && i < |b|
    {
      if b[i] != a[i] && i + 1 in instances then (if b[i] then now + {i + 1} else now - {i + 1}) else now
    }

    /** Whether its object's API is built anew: on an insertion that the array did not show yet. */
    function Rebuilding(now: set<nat>, a: seq<bool>, b: seq<bool>, i: nat): seq<nat>
      requires i < |a| && i < |b|
    {
      if b[i] != a[i] && i + 1 in instances && b[i] && i + 1 !in now then [i + 1] else []
    }

    method FlushPort(portList: seq<bool>, i: nat, ghost before: map<nat, seq<Event>>)
      requires Valid() && i < numPorts && i < |portList| && SwapsFlushed(before, portStatusList, portList, i)
      modifies this`presence, this`rebuilt, links, cached
      ensures Valid() && SwapsFlushed(before, portStatusList, portList, i + 1)
      ensures presence == Passing(old(presence), portStatusList, portList, i)
      ensures rebuilt == old(rebuilt) + Rebuilding(old(presence), portStatusList, portList, i)
    {
      if portList[i] != portStatusList[i] && i + 1 in instances { Transition(i + 1, portList[i]); }
      forall p | p in instances
        ensures instances[p].link.trace == before[p] + Swap(portStatusList, portList, i + 1, p)
      {
        SwapGrows(before[p], portStatusList, portList, i, p);
      }
    }

    /** What one object does leaves the others sound: they share nothing. */
    twostate lemma OthersStay(port: nat)
      requires old(Valid()) && port in instances && instances[port].Valid() && unchanged(`portStatusList)
      requires forall p :: p in instances ==> unchanged(instances[p])
      requires forall l :: l in links && l != instances[port].link ==> unchanged(l)
      requires forall o :: o in cached && o !in instances[port].pages ==> unchanged(o)
      ensures Valid()
      ensures forall p :: p in instances && p != port ==> instances[p].link.trace == old(instances[p].link.trace)
    {
      forall p | Ported(p) && p != port
        ensures instances[p].Valid()
      {
        assert old(instances[p].Valid());
      }
    }

    /** SfpHasBeenTransitioned: the object of that port, and no other, forgets its cache, and builds its API anew if the port was absent. */
    method Transition(port: nat, present: bool)
      requires Valid() && port in instances
      modifies this`presence, this`rebuilt, instances[port].link`trace, instances[port].pages
      ensures Valid()
      ensures presence == if present then old(presence) + {port} else old(presence) - {port}
      ensures rebuilt == old(rebuilt) + if present && port !in old(presence) then [port] else []
      ensures instances[port].link.trace == old(instances[port].link.trace) + [Flushed(true)]
      ensures forall p :: p in instances && p != port ==> instances[p].link.trace == old(instances[p].link.trace)
    {
      assert Ported(port);
      instances[port].HasBeenTransitioned();
      OthersStay(port);
      if present && port !in presence { rebuilt := rebuilt + [port]; }
      presence := if present then presence + {port} else presence - {port};
    }

    /**
     check_sfp_status.  `answers` are the presence lists to come (empty ones for a
     failed request), `remaining` the seconds left after each.  It reports at the
     first list that differs, and until then touches no cache.
     */
    method CheckSfpStatus(portChange: Changes, timeout: int, answers: seq<seq<bool>>, remaining: seq<real>)
      returns (r: Outcome, ghost k: nat)
      requires Valid() && |remaining| == |answers|
      modifies this`portStatusList, this`presence, this`rebuilt, links, cached
      ensures Valid()
      ensures r.Refused? <==> timeout < 0
      ensures k <= |answers| && (forall j :: 0 <= j < k ==> answers[j] == old(portStatusList))
      ensures forall j :: 0 <= j < k - 1 && timeout > 0 ==> remaining[j] >= 1.0
      ensures r.Changed? || r.Raised? ==>
                && k < |answers| && answers[k] != old(portStatusList)
                && (r.Raised? <==> |answers[k]| < numPorts)
                && SwapsFlushed(old(Traces()), old(portStatusList), answers[k], Least(numPorts, |answers[k]|))
      ensures r.Changed? ==> portStatusList == answers[k] && r.change == portChange + Diff(old(portStatusList), answers[k], numPorts)
      ensures !r.Changed? ==> portStatusList == old(portStatusList)
      ensures r.Unchanged? ==> timeout > 0 && k > 0 && remaining[k - 1] < 1.0
      ensures r.StillPolling? ==> k == |answers| && forall j :: 0 <= j < k && timeout > 0 ==> remaining[j] >= 1.0
      ensures r.Unchanged? || r.StillPolling? || r.Refused? ==> Traces() == old(Traces()) && presence == old(presence) && rebuilt == old(rebuilt)
      ensures r.Changed? ==> presence == Passed(old(presence), old(portStatusList), answers[k], numPorts)
      ensures r.Changed? ==> rebuilt == old(rebuilt) + Rebuilds(old(presence), old(portStatusList), answers[k], numPorts)
    {
      var forever := false;
      k := 0;
      if timeout == 0 { forever := true; }
      else if timeout < 0 { return Refused, 0; }
      for i := 0 to |answers|
        invariant k == i && Valid() && portStatusList == old(portStatusList)
        invariant forall j :: 0 <= j < i ==> answers[j] == portStatusList
        invariant forall j :: 0 <= j < i && !forever ==> remaining[j] >= 1.0
        invariant Traces() == old(Traces()) && presence == old(presence) && rebuilt == old(rebuilt)
      {
        if answers[i] != portStatusList {
          var raised, change := Report(portChange, answers[i]);
          if raised { return Raised, i; }
          NotedIsDiff(portChange, portStatusList, answers[i], numPorts);
          portStatusList := answers[i];
          return Changed(change), i;
        }
        if !forever && remaining[i] < 1.0 { return Unchanged, i + 1; }
        k := i + 1;
      }
      return StillPolling, |answers|;
    }
  }

  /**
   Hot-swap safety, end to end: once the poller has reported that a port's presence
   changed, nothing that any later read from the port's object returns, upper page 0
   included and whatever was read, written or swapped in between, was delivered
   before the report.
   */
  method ReportThenRead(ev: SfpEvent, portChange: Changes, timeout: int, answers: seq<seq<bool>>, remaining: seq<real>,
                        p: nat, uses: seq<Use>, at: nat, m: nat)
    returns (r: Outcome, ghost k: nat, d: ReadResult)
    requires ev.Valid() && |remaining| == |answers| && p in ev.instances
    modifies ev`portStatusList, ev`presence, ev`rebuilt, ev.links, ev.cached, ev.instances[p]
    ensures r.Changed? ==> k < |answers|
    ensures r.Changed? && p <= ev.numPorts && Differs(old(ev.portStatusList), answers[k], p) ==>
              ReadSince(ev.instances[p].link.trace, |old(ev.instances[p].link.trace)|, false, at, d)
  {
    ghost var before := ev.instances[p].link.trace;
    r, k := ev.CheckSfpStatus(portChange, timeout, answers, remaining);
    ghost var reported := ev.instances[p].link.trace;
    assert ev.Ported(p);
    d := UseThenRead(ev.instances[p], uses, at, m);
    assert r.Changed? && p <= ev.numPorts && Differs(old(ev.portStatusList), answers[k], p) ==> reported == before + [Flushed(true)];
  }
}
