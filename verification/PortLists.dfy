/** Lists of port presence, and the change dictionaries that the presence pollers report. */
module PortLists {

  /** A change dictionary: port numbers from 1, true for inserted and false for removed. */
  type Changes = map<int, bool>

  /** Port p is on both lists and differs. */
  predicate Differs(a: seq<bool>, b: seq<bool>, p: int) {
    1 <= p <= |a| && p <= |b| && a[p - 1] != b[p - 1]
  }

  /** The first n ports that differ, with their new presence. */
  function Diff(a: seq<bool>, b: seq<bool>, n: nat): Changes
    requires n <= |a| && n <= |b|
  {
    map p: int | 1 <= p <= n && Differs(a, b, p) :: b[p - 1]
  }

  /** A dictionary with the first n changed ports written into it, one after the other. */
  function Noted(given: Changes, a: seq<bool>, b: seq<bool>, n: nat): Changes
    requires n <= |a| && n <= |b|
  {
    if n == 0 then given
    else if b[n - 1] != a[n - 1] then Noted(given, a, b, n - 1)[n := b[n - 1]] else Noted(given, a, b, n - 1)
  }

  /** That is the difference of the lists laid over the dictionary. */
  lemma {:induction false} NotedIsDiff(given: Changes, a: seq<bool>, b: seq<bool>, n: nat)
    requires n <= |a| && n <= |b|
    ensures Noted(given, a, b, n) == given + Diff(a, b, n)
  {
    if n > 0 {
      NotedIsDiff(given, a, b, n - 1);
      assert Diff(a, b, n) == if b[n - 1] != a[n - 1] then Diff(a, b, n - 1)[n := b[n - 1]] else Diff(a, b, n - 1);
    }
  }
}
