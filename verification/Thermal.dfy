/**
 The fan-level controller of the 7220 D4: ThermalInfo.collect in
 ixr7220d4/sonic_platform/thermal_infos.py and the action that follows it in
 thermal_actions.py.  Temperatures are real numbers; thresholds are the tables'
 integers.
 */
module FanLevels {

  const NUM_LEVELS: nat := 3

  /** Threshold rows, one per level, one column per sensor. */
  datatype Table = Table(up: seq<seq<int>>, down: seq<seq<int>>)

  const INTAKE := Table(
    [[38, 38, 38, 40, 38, 84, 61], [49, 51, 48, 48, 50, 95, 74], [52, 54, 52, 53, 54, 98, 78]],
    [[33, 33, 33, 34, 33, 73, 53], [45, 46, 45, 44, 44, 88, 72], [49, 51, 48, 48, 50, 96, 74]])

  const EXHAUST := Table(
    [[43, 33, 38, 33, 27, 55, 62], [58, 45, 51, 45, 36, 71, 79], [61, 49, 55, 50, 45, 77, 83]],
    [[35, 24, 30, 26, 22, 48, 52], [55, 42, 49, 41, 33, 67, 72], [58, 45, 51, 47, 39, 74, 79]])

  function TableFor(fanType: string): Table {
    if fanType == "intake" then INTAKE else if fanType == "exhaust" then EXHAUST else Table([], [])
  }

  /** The table has an entry for every level and each of n sensors. */
  predicate Usable(t: Table, n: nat) {
    |t.up| >= NUM_LEVELS && |t.down| >= NUM_LEVELS
    && forall l :: 0 <= l < NUM_LEVELS ==> |t.up[l]| >= n && |t.down[l]| >= n
  }

  /** Rows rise with the level, and a down threshold lies below its up threshold. */
  predicate WellFormed(t: Table, n: nat) {
    && Usable(t, n)
    && (forall l, m, i :: 0 <= l <= m < NUM_LEVELS && 0 <= i < n ==> t.up[l][i] <= t.up[m][i] && t.down[l][i] <= t.down[m][i])
    && (forall l, i :: 0 <= l < NUM_LEVELS && 0 <= i < n ==> t.down[l][i] < t.up[l][i])
  }

  predicate Hot(t: Table, temps: seq<real>, l: nat, i: nat)
    requires Usable(t, |temps|) && l < NUM_LEVELS && i < |temps|
  {
    temps[i] > t.up[l][i] as real
  }

  predicate Cool(t: Table, temps: seq<real>, l: nat, i: nat)
    requires Usable(t, |temps|) && l < NUM_LEVELS && i < |temps|
  {
    temps[i] < t.down[l][i] as real
  }

  predicate AnyHot(t: Table, temps: seq<real>, l: nat)
    requires Usable(t, |temps|) && l < NUM_LEVELS
  {
    exists i :: 0 <= i < |temps| && Hot(t, temps, l, i)
  }

  /** d is the level asked for: some sensor is above the row below d, and none is above any row from d on. */
  predicate IsDemand(t: Table, temps: seq<real>, d: int)
    requires Usable(t, |temps|)
  {
    && 0 <= d <= NUM_LEVELS
    && (d > 0 ==> AnyHot(t, temps, d - 1))
    && (forall l :: d <= l < NUM_LEVELS ==> !AnyHot(t, temps, l))
  }

  /** m is the lowest level sensor i would let go to: the first row it is below. */
  predicate IsFloorOf(t: Table, temps: seq<real>, i: nat, m: int)
    requires Usable(t, |temps|) && i < |temps|
  {
    && 0 <= m <= NUM_LEVELS
    && (m < NUM_LEVELS ==> Cool(t, temps, m, i))
    && (forall l :: 0 <= l < m ==> !Cool(t, temps, l, i))
  }

  /** a is the lowest level all sensors let go to. */
  ghost predicate IsAllowance(t: Table, temps: seq<real>, a: int)
    requires Usable(t, |temps|)
  {
    && (exists i :: 0 <= i < |temps| && IsFloorOf(t, temps, i, a))
    && (forall i, m :: 0 <= i < |temps| && IsFloorOf(t, temps, i, m) ==> m <= a)
  }

  function Clamp(x: int, lo: int, hi: int): int {
    if x < lo then lo else if x > hi then hi else x
  }

  /** One collect moves the level from `was` to `level`. */
  ghost predicate Moves(t: Table, temps: seq<real>, fanFailed: bool, was: int, level: int)
    requires Usable(t, |temps|)
  {
    if fanFailed then level == NUM_LEVELS
    else exists d, a :: IsDemand(t, temps, d) && IsAllowance(t, temps, a) && level == Max(Min(a, was), d)
  }

  function Max(a: int, b: int): int {
    if a > b then a else b
  }

  function Min(a: int, b: int): int {
    if a < b then a else b
  }

  lemma DemandUnique(t: Table, temps: seq<real>, d: int, e: int)
    requires Usable(t, |temps|) && IsDemand(t, temps, d) && IsDemand(t, temps, e)
    ensures d == e
  {
  }

  lemma AllowanceUnique(t: Table, temps: seq<real>, a: int, b: int)
    requires Usable(t, |temps|) && IsAllowance(t, temps, a) && IsAllowance(t, temps, b)
    ensures a == b
  {
  }

  /** With a well-formed table the level asked for never exceeds the level allowed. */
  lemma DemandBelowAllowance(t: Table, temps: seq<real>, d: int, a: int)
    requires WellFormed(t, |temps|) && IsDemand(t, temps, d) && IsAllowance(t, temps, a)
    ensures d <= a
  {
    if d > 0 {
      var i :| 0 <= i < |temps| && Hot(t, temps, d - 1, i);
      var m := FloorOf(t, temps, i);
      assert forall l :: 0 <= l < d ==> !Cool(t, temps, l, i);
    }
  }

  /** Every sensor has a floor. */
  function FloorOf(t: Table, temps: seq<real>, i: nat): (m: int)
    requires Usable(t, |temps|) && i < |temps|
    ensures IsFloorOf(t, temps, i, m)
  {
    if Cool(t, temps, 0, i) then 0 else if Cool(t, temps, 1, i) then 1 else if Cool(t, temps, 2, i) then 2 else 3
  }

  /**
   With no failed fan and a well-formed table, a collect clamps the level between
   the level asked for and the level allowed; from the starting value -1 it takes
   the level asked for.
   */
  lemma CollectClamps(t: Table, temps: seq<real>, was: int, level: int, d: int, a: int)
    requires WellFormed(t, |temps|) && IsDemand(t, temps, d) && IsAllowance(t, temps, a)
    requires Moves(t, temps, false, was, level)
    ensures d <= a && level == Clamp(was, d, a)
  {
    DemandBelowAllowance(t, temps, d, a);
    var d', a' :| IsDemand(t, temps, d') && IsAllowance(t, temps, a') && level == Max(Min(a', was), d');
    DemandUnique(t, temps, d, d');
    AllowanceUnique(t, temps, a, a');
  }

  /** Collecting the same readings again changes nothing. */
  lemma CollectSettles(t: Table, temps: seq<real>, was: int, mid: int, level: int)
    requires WellFormed(t, |temps|) && Moves(t, temps, false, was, mid) && Moves(t, temps, false, mid, level)
    ensures level == mid
  {
    var d, a :| IsDemand(t, temps, d) && IsAllowance(t, temps, a) && mid == Max(Min(a, was), d);
    CollectClamps(t, temps, was, mid, d, a);
    CollectClamps(t, temps, mid, level, d, a);
  }

  /** Readings always ask for some level and allow some level. */
  lemma LevelsExist(t: Table, temps: seq<real>) returns (d: int, a: int)
    requires Usable(t, |temps|) && temps != []
    ensures IsDemand(t, temps, d) && IsAllowance(t, temps, a)
  {
    d := if AnyHot(t, temps, 2) then 3 else if AnyHot(t, temps, 1) then 2 else if AnyHot(t, temps, 0) then 1 else 0;
    var top := 0;
    for k := 1 to |temps|
      invariant 0 <= top < k && forall i :: 0 <= i < k ==> FloorOf(t, temps, i) <= FloorOf(t, temps, top)
    {
      if FloorOf(t, temps, k) > FloorOf(t, temps, top) { top := k; }
    }
    a := FloorOf(t, temps, top);
    forall i, m | 0 <= i < |temps| && IsFloorOf(t, temps, i, m)
      ensures m <= a
    {
      assert m == FloorOf(t, temps, i);
    }
  }

  /**
   Where a collect may leave the level, in the readings and the rows themselves:
   above every row that some sensor exceeds, not above a row that all sensors are
   below; up only as far as a sensor's excess carries it, down only to a row that all
   sensors are below.
   */
  predicate Settles(t: Table, temps: seq<real>, was: int, level: int)
    requires Usable(t, |temps|)
  {
    && 0 <= level <= 3
    && (forall l, i :: 0 <= l < 3 && 0 <= i < |temps| && temps[i] > t.up[l][i] as real ==> level > l)
    && (forall l :: 0 <= l < 3 && (forall i :: 0 <= i < |temps| ==> temps[i] < t.down[l][i] as real) ==> level <= l)
    && (level > was && level > 0 ==> exists i :: 0 <= i < |temps| && temps[i] > t.up[level - 1][i] as real)
    && (level < was ==> level < 3 && forall i :: 0 <= i < |temps| ==> temps[i] < t.down[level][i] as real)
  }

  /** Every sensor is below the row of the level that all of them allow. */
  lemma AllBelowAllowance(t: Table, temps: seq<real>, a: int)
    requires WellFormed(t, |temps|) && IsAllowance(t, temps, a) && a < 3
    ensures forall i :: 0 <= i < |temps| ==> temps[i] < t.down[a][i] as real
  {
    forall i | 0 <= i < |temps|
      ensures temps[i] < t.down[a][i] as real
    {
      var m := FloorOf(t, temps, i);
      assert IsFloorOf(t, temps, i, m) && Cool(t, temps, m, i);
    }
  }

  /** Clamping between the level asked for and the level allowed settles the level. */
  lemma ClampSettles(t: Table, temps: seq<real>, was: int, d: int, a: int)
    requires WellFormed(t, |temps|) && IsDemand(t, temps, d) && IsAllowance(t, temps, a) && -1 <= was <= 3
    ensures Settles(t, temps, was, Clamp(was, d, a))
  {
    DemandBelowAllowance(t, temps, d, a);
    var level := Clamp(was, d, a);
    forall l, i | 0 <= l < 3 && 0 <= i < |temps| && temps[i] > t.up[l][i] as real
      ensures level > l
    {
      assert Hot(t, temps, l, i) && AnyHot(t, temps, l);
    }
    forall l | 0 <= l < 3 && (forall i :: 0 <= i < |temps| ==> temps[i] < t.down[l][i] as real)
      ensures level <= l
    {
      var i :| 0 <= i < |temps| && IsFloorOf(t, temps, i, a);
      assert Cool(t, temps, l, i);
    }
    if level > was && level > 0 {
      var i :| 0 <= i < |temps| && Hot(t, temps, d - 1, i);
    }
    if level < was { AllBelowAllowance(t, temps, a); }
  }

  /** A settled level lies between the two. */
  lemma SettlesBetween(t: Table, temps: seq<real>, was: int, level: int, d: int, a: int)
    requires WellFormed(t, |temps|) && IsDemand(t, temps, d) && IsAllowance(t, temps, a) && Settles(t, temps, was, level)
    ensures d <= level <= a
  {
    if d > 0 {
      var i :| 0 <= i < |temps| && Hot(t, temps, d - 1, i);
      assert temps[i] > t.up[d - 1][i] as real;
    }
    if a < 3 { AllBelowAllowance(t, temps, a); }
  }

  /** And moves no farther than it must. */
  lemma SettlesNear(t: Table, temps: seq<real>, was: int, level: int, d: int, a: int)
    requires Usable(t, |temps|) && IsDemand(t, temps, d) && IsAllowance(t, temps, a) && Settles(t, temps, was, level)
    ensures level > was && level > 0 ==> level <= d
    ensures level < was ==> level >= a
  {
    if level > was && level > 0 {
      var i :| 0 <= i < |temps| && temps[i] > t.up[level - 1][i] as real;
      assert Hot(t, temps, level - 1, i) && AnyHot(t, temps, level - 1);
    }
    if level < was {
      var i :| 0 <= i < |temps| && IsFloorOf(t, temps, i, a);
      assert Cool(t, temps, level, i);
    }
  }

  /** The level after a collect, exactly. */
  lemma CollectIff(t: Table, temps: seq<real>, was: int, level: int)
    requires WellFormed(t, |temps|) && temps != [] && -1 <= was <= 3
    ensures Moves(t, temps, false, was, level) <==> Settles(t, temps, was, level)
  {
    var d, a := LevelsExist(t, temps);
    DemandBelowAllowance(t, temps, d, a);
    ClampSettles(t, temps, was, d, a);
    if Settles(t, temps, was, level) {
      SettlesBetween(t, temps, was, level, d, a);
      SettlesNear(t, temps, was, level, d, a);
    }
    if Moves(t, temps, false, was, level) { CollectClamps(t, temps, was, level, d, a); }
    assert Clamp(was, d, a) == Max(Min(a, was), d);
  }

  lemma ConcreteTablesWellFormed(fanType: string)
    requires fanType == "intake" || fanType == "exhaust"
    ensures WellFormed(TableFor(fanType), 7)
  {
    var t := TableFor(fanType);
    forall l, m | 0 <= l <= m < NUM_LEVELS
      ensures forall i :: 0 <= i < 7 ==> t.up[l][i] <= t.up[m][i] && t.down[l][i] <= t.down[m][i] && t.down[l][i] < t.up[l][i]
    {
      forall i | 0 <= i < 7
        ensures t.up[l][i] <= t.up[m][i] && t.down[l][i] <= t.down[m][i] && t.down[l][i] < t.up[l][i]
      {
        assert l == 0 || l == 1 || l == 2;
        assert m == 0 || m == 1 || m == 2;
        assert i == 0 || i == 1 || i == 2 || i == 3 || i == 4 || i == 5 || i == 6;
      }
    }
  }

  // ---------------------------------------------------------------- whole runs

  /** A run of collects without fan faults on one kind of fan: the readings, and the levels around them. */
  ghost predicate IsRun(t: Table, readings: seq<seq<real>>, levels: seq<int>, n: nat) {
    && WellFormed(t, n)
    && |levels| == |readings| + 1
    && forall k :: 0 <= k < |readings| ==> |readings[k]| == n && Moves(t, readings[k], false, levels[k], levels[k + 1])
  }

  /** A rise above level l is some sensor above row l. */
  lemma RiseMeansHot(t: Table, temps: seq<real>, was: int, level: int, l: nat)
    requires WellFormed(t, |temps|) && Moves(t, temps, false, was, level) && was <= l < level
    ensures l < NUM_LEVELS && AnyHot(t, temps, l)
  {
    var d, a :| IsDemand(t, temps, d) && IsAllowance(t, temps, a) && level == Max(Min(a, was), d);
    var i :| 0 <= i < |temps| && Hot(t, temps, d - 1, i);
    assert Hot(t, temps, l, i);
  }

  /** A fall to level l has every sensor below row l. */
  lemma FallMeansAllCool(t: Table, temps: seq<real>, was: int, level: int)
    requires WellFormed(t, |temps|) && Moves(t, temps, false, was, level) && level < was <= NUM_LEVELS
    ensures 0 <= level < NUM_LEVELS && forall i :: 0 <= i < |temps| ==> temps[i] < t.down[level][i] as real
  {
    var d, a :| IsDemand(t, temps, d) && IsAllowance(t, temps, a) && level == Max(Min(a, was), d);
    DemandBelowAllowance(t, temps, d, a);
    forall i | 0 <= i < |temps|
      ensures temps[i] < t.down[level][i] as real
    {
      var m := FloorOf(t, temps, i);
      assert m <= a && Cool(t, temps, m, i);
    }
  }

  lemma {:induction false} LevelsInRange(t: Table, readings: seq<seq<real>>, levels: seq<int>, n: nat, k: nat)
    requires IsRun(t, readings, levels, n) && -1 <= levels[0] <= NUM_LEVELS && k < |levels|
    ensures -1 <= levels[k] <= NUM_LEVELS && (k > 0 ==> 0 <= levels[k])
  {
    if k > 0 {
      LevelsInRange(t, readings, levels, n, k - 1);
      var d, a :| IsDemand(t, readings[k - 1], d) && IsAllowance(t, readings[k - 1], a) && levels[k] == Max(Min(a, levels[k - 1]), d);
    }
  }

  /**
   No chatter: between a rise from l or below to above l and a later fall back to
   l or below, some one sensor has gone from above its up threshold of row l to
   below its down threshold of row l.
   */
  lemma NoChatter(t: Table, readings: seq<seq<real>>, levels: seq<int>, n: nat, l: nat, i: nat, j: nat) returns (sensor: nat)
    requires IsRun(t, readings, levels, n) && -1 <= levels[0] <= NUM_LEVELS
    requires i < j < |readings| && levels[i] <= l < levels[i + 1] && levels[j + 1] <= l < levels[j]
    ensures l < NUM_LEVELS && sensor < n && Usable(t, n) && |readings[i]| == |readings[j]| == n
    ensures readings[i][sensor] > t.up[l][sensor] as real && readings[j][sensor] < t.down[l][sensor] as real
  {
    LevelsInRange(t, readings, levels, n, j);
    RiseMeansHot(t, readings[i], levels[i], levels[i + 1], l);
    FallMeansAllCool(t, readings[j], levels[j], levels[j + 1]);
    sensor :| 0 <= sensor < n && Hot(t, readings[i], l, sensor);
  }
}

/** The objects: ThermalInfo, the fans, and the action that commands them. */
module FanControl {
  import opened FanLevels
  import opened Wrappers

  type Fan = nat

  /** What a collect reads from the chassis. */
  datatype Chassis = Chassis(fanType: string, temps: seq<real>, fanOk: seq<bool>)

  /** The four requests to the action: default, threshold one, threshold two and high-temperature speed. */
  datatype Flags = Flags(default: bool, one: bool, two: bool, high: bool)

  class ThermalInfo {
    var oldLevel: int
    var currentLevel: int
    var temps: seq<real>
    var table: Table
    var setDefault: bool
    var setOne: bool
    var setTwo: bool
    var setHigh: bool

    constructor ()
      ensures oldLevel == -1 && currentLevel == 0 && FlagsUp() == NO_FLAGS
    {
      oldLevel, currentLevel, temps, table := -1, 0, [], Table([], []);
      setDefault, setOne, setTwo, setHigh := false, false, false, false;
    }

    ghost function FlagsUp(): Flags
      reads this
    {
      Flags(setDefault, setOne, setTwo, setHigh)
    }

    /** Whether any fan reports a fault. */
    static predicate FanFailed(fanOk: seq<bool>) {
      exists k :: 0 <= k < |fanOk| && !fanOk[k]
    }

    static lemma FailedPrefix(fanOk: seq<bool>, k: nat)
      requires k < |fanOk|
      ensures FanFailed(fanOk[..k + 1]) <==> FanFailed(fanOk[..k]) || !fanOk[k]
    {
      if FanFailed(fanOk[..k]) {
        var m :| 0 <= m < k && !fanOk[..k][m];
        assert !fanOk[..k + 1][m];
      }
      if !fanOk[k] { assert !fanOk[..k + 1][k]; }
      if FanFailed(fanOk[..k + 1]) {
        var m :| 0 <= m < k + 1 && !fanOk[..k + 1][m];
        assert m < k ==> !fanOk[..k][m];
      }
    }

    /**
     collect.  Without sensors, or without a threshold for each, it raises: the
     flags are down and the level is as it was.  Otherwise the level moves, and the
     flag of the new level is up exactly when the level changed.
     */
    method Collect(c: Chassis) returns (raised: bool)
      modifies this
      ensures raised <==> Fails(c)
      ensures raised ==> oldLevel == old(oldLevel) && currentLevel == old(currentLevel) && FlagsUp() == NO_FLAGS
      ensures !raised ==> Moves(TableFor(c.fanType), c.temps, FanFailed(c.fanOk), old(oldLevel), currentLevel)
      ensures !raised ==> oldLevel == currentLevel
      ensures !raised ==> FlagsUp() == if currentLevel == old(oldLevel) then NO_FLAGS else FlagFor(currentLevel)
    {
      temps := [];
      setDefault, setOne, setTwo, setHigh := false, false, false, false;
      table := TableFor(c.fanType);
      temps := c.temps;
      if temps == [] || !Usable(table, |temps|) { return true; }
      FindLevel(c.fanOk);
      DecideSpeed();
      oldLevel := currentLevel;
      return false;
    }

    /** Lines 113-138: the level the readings call for, and the fan faults' override. */
    method FindLevel(fanOk: seq<bool>)
      requires temps != [] && Usable(table, |temps|)
      modifies this`currentLevel
      ensures Moves(table, temps, FanFailed(fanOk), oldLevel, currentLevel)
    {
      var maxLevel, maxOfMin := Scan(table, temps);
      ghost var allowed := maxOfMin;
      if maxOfMin > oldLevel { maxOfMin := oldLevel; }
      var wanted := Max(maxOfMin, maxLevel);
      assert IsDemand(table, temps, maxLevel) && IsAllowance(table, temps, allowed) && wanted == Max(Min(allowed, oldLevel), maxLevel);
      currentLevel := wanted;
      for k := 0 to |fanOk|
        invariant currentLevel == if FanFailed(fanOk[..k]) then 3 else wanted
      {
        if !fanOk[k] { currentLevel := 3; }
        FailedPrefix(fanOk, k);
      }
      assert fanOk[..|fanOk|] == fanOk;
    }

    /** Lines 142-150: raise the flag of a level that has changed. */
    method DecideSpeed()
      requires FlagsUp() == NO_FLAGS
      modifies this`setDefault, this`setOne, this`setTwo, this`setHigh
      ensures FlagsUp() == if currentLevel == oldLevel then NO_FLAGS else FlagFor(currentLevel)
    {
      if currentLevel != oldLevel {
        if currentLevel == 0 { setDefault := true; }
        else if currentLevel == 1 { setOne := true; }
        else if currentLevel == 2 { setTwo := true; }
        else if currentLevel == 3 { setHigh := true; }
      }
    }
  }

  /** No sensors, or some without a threshold. */
  predicate Fails(c: Chassis) {
    c.temps == [] || !Usable(TableFor(c.fanType), |c.temps|)
  }

  /** The double loop over sensors and levels: the level asked for and the level allowed. */
  method Scan(t: Table, temps: seq<real>) returns (maxLevel: int, maxOfMin: int)
    requires temps != [] && Usable(t, |temps|)
    ensures IsDemand(t, temps, maxLevel) && IsAllowance(t, temps, maxOfMin)
  {
    maxLevel := 0;
    var minLevel := seq(|temps|, _ => NUM_LEVELS as int);
    for i := 0 to |temps|
      invariant |minLevel| == |temps|
      invariant 0 <= maxLevel <= NUM_LEVELS
      invariant maxLevel > 0 ==> AnyHot(t, temps, maxLevel - 1)
      invariant forall l, k :: maxLevel <= l < NUM_LEVELS && 0 <= k < i ==> !Hot(t, temps, l, k)
      invariant forall k :: 0 <= k < i ==> IsFloorOf(t, temps, k, minLevel[k])
      invariant forall k :: i <= k < |temps| ==> minLevel[k] == NUM_LEVELS
    {
      for level := 0 to NUM_LEVELS
        invariant |minLevel| == |temps|
        invariant 0 <= maxLevel <= NUM_LEVELS
        invariant maxLevel > 0 ==> AnyHot(t, temps, maxLevel - 1)
        invariant forall l, k :: maxLevel <= l < NUM_LEVELS && 0 <= k < i ==> !Hot(t, temps, l, k)
        invariant forall l :: maxLevel <= l < level ==> !Hot(t, temps, l, i)
        invariant forall k :: 0 <= k < i ==> IsFloorOf(t, temps, k, minLevel[k])
        invariant forall k :: i < k < |temps| ==> minLevel[k] == NUM_LEVELS
        invariant 0 <= minLevel[i] <= NUM_LEVELS
        invariant minLevel[i] < NUM_LEVELS ==> minLevel[i] < level && Cool(t, temps, minLevel[i], i)
        invariant forall l :: 0 <= l < level && l < minLevel[i] ==> !Cool(t, temps, l, i)
      {
        if temps[i] > t.up[level][i] as real {
          assert Hot(t, temps, level, i);
          if maxLevel < level + 1 { maxLevel := level + 1; }
        }
        if temps[i] < t.down[level][i] as real {
          if minLevel[i] > level { minLevel := minLevel[i := level]; }
        }
      }
    }
    var top := 0;
    for k := 1 to |minLevel|
      invariant 0 <= top < k
      invariant forall m :: 0 <= m < k ==> minLevel[m] <= minLevel[top]
    {
      if minLevel[k] > minLevel[top] { top := k; }
    }
    maxOfMin := minLevel[top];
    assert IsFloorOf(t, temps, top, maxOfMin);
    forall i, m | 0 <= i < |temps| && IsFloorOf(t, temps, i, m)
      ensures m <= maxOfMin
    {
      assert IsFloorOf(t, temps, i, minLevel[i]) && minLevel[i] <= minLevel[top];
    }
  }

  const NO_FLAGS := Flags(false, false, false, false)

  function FlagFor(level: int): Flags {
    Flags(level == 0, level == 1, level == 2, level == 3)
  }

  // ---------------------------------------------------------------- commanding the fans

  /** The four configured speeds, in percent; JSON gives them as fractional numbers. */
  datatype Speeds = Speeds(default: real, one: real, two: real, high: real)

  function SpeedFor(sp: Speeds, level: int): int {
    (if level == 0 then sp.default else if level == 1 then sp.one else if level == 2 then sp.two else sp.high).Floor
  }

  /** The fans: the speed last commanded to each, and how often each was commanded. */
  class FanBank {
    var speed: map<Fan, int>
    var count: map<Fan, nat>

    function Count(f: Fan): nat
      reads this
    {
      if f in count then count[f] else 0
    }

    method SetSpeed(f: Fan, s: int)
      modifies this
      ensures speed == old(speed)[f := s] && Count(f) == old(Count(f)) + 1
      ensures forall g :: g != f ==> Count(g) == old(Count(g))
    {
      count := count[f := Count(f) + 1];
      speed := speed[f := s];
    }

    /** set_all_fan_speed: each present fan once, in whatever order the set is walked. */
    method SetAll(present: set<Fan>, s: int)
      modifies this
      ensures forall f :: f in present ==> f in speed && speed[f] == s && Count(f) == old(Count(f)) + 1
      ensures forall f :: f !in present ==> Count(f) == old(Count(f)) && (f in speed <==> f in old(speed)) && (f in speed ==> speed[f] == old(speed)[f])
    {
      var todo := present;
      while todo != {}
        invariant todo <= present
        invariant forall f :: f in present - todo ==> f in speed && speed[f] == s && Count(f) == old(Count(f)) + 1
        invariant forall f :: f !in present - todo ==> Count(f) == old(Count(f)) && (f in speed <==> f in old(speed)) && (f in speed ==> speed[f] == old(speed)[f])
        decreases |todo|
      {
        var f :| f in todo;
        SetSpeed(f, s);
        todo := todo - {f};
      }
    }
  }

  /** ThermalRecoverAction.execute: one command to all present fans if a flag is up, none otherwise. */
  method Execute(info: ThermalInfo, sp: Speeds, bank: FanBank, present: set<Fan>)
    modifies bank
    ensures info.setHigh ==> Commanded(bank.speed, old(bank.speed), present, sp.high.Floor)
    ensures info.setTwo && !info.setHigh ==> Commanded(bank.speed, old(bank.speed), present, sp.two.Floor)
    ensures info.setOne && !info.setTwo && !info.setHigh ==> Commanded(bank.speed, old(bank.speed), present, sp.one.Floor)
    ensures info.setDefault && !info.setOne && !info.setTwo && !info.setHigh ==> Commanded(bank.speed, old(bank.speed), present, sp.default.Floor)
    ensures info.setDefault || info.setOne || info.setTwo || info.setHigh ==>
              forall f :: bank.Count(f) == old(bank.Count(f)) + (if f in present then 1 else 0)
    ensures info.FlagsUp() == NO_FLAGS ==> bank.speed == old(bank.speed) && bank.count == old(bank.count)
  {
    if info.setHigh { bank.SetAll(present, sp.high.Floor); }
    else if info.setTwo { bank.SetAll(present, sp.two.Floor); }
    else if info.setOne { bank.SetAll(present, sp.one.Floor); }
    else if info.setDefault { bank.SetAll(present, sp.default.Floor); }
  }

  /** Exactly the present fans have the new speed. */
  ghost predicate Commanded(now: map<Fan, int>, before: map<Fan, int>, present: set<Fan>, s: int) {
    && (forall f :: f in present ==> f in now && now[f] == s)
    && (forall f :: f !in present ==> (f in now <==> f in before) && (f in now ==> now[f] == before[f]))
  }

  /** A collect that raises leaves the level alone. */
  ghost predicate Follows(c: Chassis, was: int, level: int) {
    if Fails(c) then level == was
    else Moves(TableFor(c.fanType), c.temps, ThermalInfo.FanFailed(c.fanOk), was, level)
  }

  /** The levels around the collects of some rounds, starting from the -1 of a new object. */
  ghost predicate LevelsOf(rounds: seq<Chassis>, levels: seq<int>) {
    |levels| == |rounds| + 1 && levels[0] == -1 && forall k :: 0 <= k < |rounds| ==> Follows(rounds[k], levels[k], levels[k + 1])
  }

  /** In round k the level changes while fan f is there. */
  predicate Attends(levels: seq<int>, present: seq<set<Fan>>, f: Fan, k: nat)
    requires k + 1 < |levels| <= |present| + 1
  {
    levels[k + 1] != levels[k] && f in present[k]
  }

  /** How many level changes fan f attends. */
  function Attended(levels: seq<int>, present: seq<set<Fan>>, f: Fan): nat
    requires |levels| <= |present| + 1
  {
    if |levels| <= 1 then 0
    else Attended(levels[..|levels| - 1], present, f) + if Attends(levels, present, f, |levels| - 2) then 1 else 0
  }

  /** The level of the last change it attends, if any. */
  function LastAttended(levels: seq<int>, present: seq<set<Fan>>, f: Fan): Option<int>
    requires |levels| <= |present| + 1
  {
    if |levels| <= 1 then None
    else if Attends(levels, present, f, |levels| - 2) then Some(levels[|levels| - 1])
    else LastAttended(levels[..|levels| - 1], present, f)
  }

  /** Unless it attends none, there is a last round it attends, and that is the level reached in it. */
  lemma {:induction false} LastAttendedIs(levels: seq<int>, present: seq<set<Fan>>, f: Fan) returns (k: nat)
    requires |levels| <= |present| + 1 && LastAttended(levels, present, f).Some?
    ensures k + 1 < |levels| && Attends(levels, present, f, k) && LastAttended(levels, present, f) == Some(levels[k + 1])
    ensures forall m :: k < m < |levels| - 1 ==> !Attends(levels, present, f, m)
  {
    k := |levels| - 2;
    if !Attends(levels, present, f, k) {
      var shorter := levels[..|levels| - 1];
      k := LastAttendedIs(shorter, present, f);
      assert forall m :: 0 <= m < |levels| - 2 ==> Attends(levels, present, f, m) == Attends(shorter, present, f, m);
    }
  }

  /** A fan that misses no change after one it attends is up to date. */
  lemma {:induction false} NoneMissed(levels: seq<int>, present: seq<set<Fan>>, f: Fan, from: nat)
    requires from + 1 < |levels| <= |present| + 1 && Attends(levels, present, f, from)
    requires forall m :: from < m < |levels| - 1 ==> levels[m + 1] == levels[m] || f in present[m]
    ensures LastAttended(levels, present, f) == Some(levels[|levels| - 1])
  {
    if !Attends(levels, present, f, |levels| - 2) {
      var shorter := levels[..|levels| - 1];
      assert Attends(shorter, present, f, from);
      NoneMissed(shorter, present, f, from);
    }
  }

  /** Different levels have different speeds. */
  predicate Distinct(sp: Speeds) {
    forall l, m :: 0 <= l < m <= 3 ==> SpeedFor(sp, l) != SpeedFor(sp, m)
  }

  /** What one round does to the commanded speeds: nothing, or, if the level changes, the new level's speed to the present fans. */
  ghost predicate Tells(sp: Speeds, was: int, level: int, now: map<Fan, int>, before: map<Fan, int>, present: set<Fan>) {
    && (level == was ==> now == before)
    && (level != was ==>
          && 0 <= level <= 3
          && (level == 0 ==> Commanded(now, before, present, sp.default.Floor))
          && (level == 1 ==> Commanded(now, before, present, sp.one.Floor))
          && (level == 2 ==> Commanded(now, before, present, sp.two.Floor))
          && (level == 3 ==> Commanded(now, before, present, sp.high.Floor)))
  }

  /** One collect and one execute: a present fan is commanded exactly when the level changes, to the new level's speed. */
  method Round(info: ThermalInfo, sp: Speeds, bank: FanBank, c: Chassis, present: set<Fan>)
    requires -1 <= info.oldLevel <= 3
    modifies info, bank
    ensures -1 <= info.oldLevel <= 3 && (info.oldLevel != old(info.oldLevel) ==> info.oldLevel >= 0)
    ensures Follows(c, old(info.oldLevel), info.oldLevel)
    ensures forall f :: bank.Count(f) == old(bank.Count(f)) + if f in present && info.oldLevel != old(info.oldLevel) then 1 else 0
    ensures Tells(sp, old(info.oldLevel), info.oldLevel, bank.speed, old(bank.speed), present)
  {
    var raised := info.Collect(c);
    if !raised {
      MovesInRange(TableFor(c.fanType), c.temps, ThermalInfo.FanFailed(c.fanOk), old(info.oldLevel), info.currentLevel);
    }
    Execute(info, sp, bank, present);
  }

  /** The commanded speeds around some rounds. */
  ghost predicate SpeedsOf(sp: Speeds, levels: seq<int>, present: seq<set<Fan>>, speeds: seq<map<Fan, int>>) {
    && |speeds| == |levels| <= |present| + 1
    && forall k {:trigger speeds[k + 1]} :: 0 <= k < |levels| - 1 ==> Tells(sp, levels[k], levels[k + 1], speeds[k + 1], speeds[k], present[k])
  }

  /** What a fan has been told so far: the speed of the last level it attended, or nothing yet. */
  ghost predicate Told(speed: map<Fan, int>, before: map<Fan, int>, sp: Speeds, levels: seq<int>, present: seq<set<Fan>>, f: Fan)
    requires |levels| <= |present| + 1
  {
    match LastAttended(levels, present, f)
    case None => (f in speed <==> f in before) && (f in speed ==> speed[f] == before[f])
    case Some(level) => 0 <= level <= 3 && f in speed && speed[f] == SpeedFor(sp, level)
  }

  lemma {:induction false} ToldAlways(sp: Speeds, levels: seq<int>, present: seq<set<Fan>>, speeds: seq<map<Fan, int>>, f: Fan, k: nat)
    requires SpeedsOf(sp, levels, present, speeds) && k < |levels|
    ensures Told(speeds[k], speeds[0], sp, levels[..k + 1], present, f)
  {
    if k > 0 {
      ToldAlways(sp, levels, present, speeds, f, k - 1);
      assert levels[..k + 1][..k] == levels[..k];
      assert Tells(sp, levels[k - 1], levels[k], speeds[k - 1 + 1], speeds[k - 1], present[k - 1]);
    }
  }

  lemma LevelsMore(rounds: seq<Chassis>, levels: seq<int>, k: nat, level: int)
    requires k < |rounds| && LevelsOf(rounds[..k], levels) && Follows(rounds[k], levels[k], level)
    ensures LevelsOf(rounds[..k + 1], levels + [level])
  {
    assert rounds[..k + 1] == rounds[..k] + [rounds[k]];
  }

  lemma AttendedMore(levels: seq<int>, level: int, present: seq<set<Fan>>, f: Fan)
    requires 0 < |levels| <= |present|
    ensures var next, attends := levels + [level], level != levels[|levels| - 1] && f in present[|levels| - 1];
      && Attended(next, present, f) == Attended(levels, present, f) + (if attends then 1 else 0)
      && LastAttended(next, present, f) == if attends then Some(level) else LastAttended(levels, present, f)
  {
    assert (levels + [level])[..|levels|] == levels;
  }

  lemma SpeedsMore(sp: Speeds, levels: seq<int>, level: int, present: seq<set<Fan>>, speeds: seq<map<Fan, int>>, speed: map<Fan, int>)
    requires SpeedsOf(sp, levels, present, speeds) && 0 < |levels| <= |present|
    requires Tells(sp, levels[|levels| - 1], level, speed, speeds[|levels| - 1], present[|levels| - 1])
    ensures SpeedsOf(sp, levels + [level], present, speeds + [speed])
  {
  }

  /**
   Collect and execute, over and over, with fans coming and going and collects that
   may raise: a fan is commanded exactly once per level change that it attends, its
   last command is the speed of the level reached in the last of them, and so, if
   the speeds differ, it runs at the current level's speed if and only if that is
   the current level.
   */
  method Control(info: ThermalInfo, sp: Speeds, bank: FanBank, rounds: seq<Chassis>, present: seq<set<Fan>>, f: Fan)
    returns (ghost levels: seq<int>, ghost speeds: seq<map<Fan, int>>)
    requires |present| == |rounds| && info.oldLevel == -1
    modifies info, bank
    ensures LevelsOf(rounds, levels) && levels[|rounds|] == info.oldLevel
    ensures SpeedsOf(sp, levels, present, speeds) && speeds[0] == old(bank.speed) && speeds[|rounds|] == bank.speed
    ensures bank.Count(f) == old(bank.Count(f)) + Attended(levels, present, f)
    ensures Told(bank.speed, old(bank.speed), sp, levels, present, f)
    ensures Distinct(sp) && LastAttended(levels, present, f).Some? ==>
              (bank.speed[f] == SpeedFor(sp, info.oldLevel) <==> LastAttended(levels, present, f) == Some(info.oldLevel))
  {
    levels, speeds := [-1], [bank.speed];
    for k := 0 to |rounds|
      invariant LevelsOf(rounds[..k], levels) && levels[k] == info.oldLevel && -1 <= info.oldLevel <= 3
      invariant SpeedsOf(sp, levels, present, speeds) && speeds[0] == old(bank.speed) && speeds[k] == bank.speed
      invariant bank.Count(f) == old(bank.Count(f)) + Attended(levels, present, f)
      invariant LastAttended(levels, present, f).Some? ==> 0 <= info.oldLevel
    {
      Round(info, sp, bank, rounds[k], present[k]);
      LevelsMore(rounds, levels, k, info.oldLevel);
      AttendedMore(levels, info.oldLevel, present, f);
      SpeedsMore(sp, levels, info.oldLevel, present, speeds, bank.speed);
      levels, speeds := levels + [info.oldLevel], speeds + [bank.speed];
    }
    assert rounds[..|rounds|] == rounds && levels[..|rounds| + 1] == levels;
    ToldAlways(sp, levels, present, speeds, f, |rounds|);
  }

  lemma MovesInRange(t: Table, temps: seq<real>, failed: bool, was: int, level: int)
    requires Usable(t, |temps|) && Moves(t, temps, failed, was, level) && -1 <= was <= 3
    ensures 0 <= level <= 3
  {
    if !failed {
      var d, a :| IsDemand(t, temps, d) && IsAllowance(t, temps, a) && level == Max(Min(a, was), d);
    }
  }

  // ---------------------------------------------------------------- what the speeds mean over a run

  /** The configured speeds rise with the level. */
  predicate Ordered(sp: Speeds) {
    sp.default <= sp.one <= sp.two <= sp.high
  }

  /** And stay apart when cut down to whole percents. */
  predicate Apart(sp: Speeds) {
    sp.default.Floor < sp.one.Floor < sp.two.Floor < sp.high.Floor
  }

  /** A present fan's speed after a change of level, and before it, if it has attended one. */
  lemma SpeedsAround(sp: Speeds, levels: seq<int>, present: seq<set<Fan>>, speeds: seq<map<Fan, int>>, f: Fan, k: nat)
    requires SpeedsOf(sp, levels, present, speeds) && k + 1 < |levels| && levels[k + 1] != levels[k] && f in present[k]
    requires LastAttended(levels[..k + 1], present, f).Some?
    ensures 0 <= LastAttended(levels[..k + 1], present, f).value <= 3 && 0 <= levels[k + 1] <= 3
    ensures f in speeds[k] && speeds[k][f] == SpeedFor(sp, LastAttended(levels[..k + 1], present, f).value)
    ensures f in speeds[k + 1] && speeds[k + 1][f] == SpeedFor(sp, levels[k + 1])
  {
    ToldAlways(sp, levels, present, speeds, f, k);
    assert Tells(sp, levels[k], levels[k + 1], speeds[k + 1], speeds[k], present[k]);
  }

  /**
   A rise of the level and a present fan: one that has missed no change since some
   change it attended is never slowed down by a rise.
   */
  lemma RiseNeverSlows(sp: Speeds, levels: seq<int>, present: seq<set<Fan>>, speeds: seq<map<Fan, int>>, f: Fan, from: nat, k: nat)
    requires SpeedsOf(sp, levels, present, speeds) && Ordered(sp)
    requires from < k && k + 1 < |levels| && levels[k] < levels[k + 1] && f in present[k]
    requires Attends(levels, present, f, from) && forall m :: from < m < k ==> levels[m + 1] == levels[m] || f in present[m]
    ensures f in speeds[k] && f in speeds[k + 1] && speeds[k][f] <= speeds[k + 1][f]
  {
    var upTo := levels[..k + 1];
    assert Attends(upTo, present, f, from);
    NoneMissed(upTo, present, f, from);
    SpeedsAround(sp, levels, present, speeds, f, k);
  }

  /** One that has missed some can be; exactly when the last level it attended was above the one now reached. */
  lemma RiseSlowsIff(sp: Speeds, levels: seq<int>, present: seq<set<Fan>>, speeds: seq<map<Fan, int>>, f: Fan, k: nat)
    requires SpeedsOf(sp, levels, present, speeds) && Apart(sp)
    requires k + 1 < |levels| && levels[k] < levels[k + 1] && f in present[k] && LastAttended(levels[..k + 1], present, f).Some?
    ensures f in speeds[k] && f in speeds[k + 1]
    ensures speeds[k + 1][f] < speeds[k][f] <==> LastAttended(levels[..k + 1], present, f).value > levels[k + 1]
  {
    SpeedsAround(sp, levels, present, speeds, f, k);
  }

  /** A collect that finds a failed fan and changes the level puts every present fan on the high-temperature speed, and the level is then the highest. */
  lemma FailedFanMeansHighSpeed(sp: Speeds, rounds: seq<Chassis>, levels: seq<int>, present: seq<set<Fan>>, speeds: seq<map<Fan, int>>, k: nat)
    requires LevelsOf(rounds, levels) && SpeedsOf(sp, levels, present, speeds) && k < |rounds|
    requires !Fails(rounds[k]) && (exists i :: 0 <= i < |rounds[k].fanOk| && !rounds[k].fanOk[i])
    ensures levels[k + 1] == 3
    ensures levels[k] != 3 ==> forall f :: f in present[k] ==> f in speeds[k + 1] && speeds[k + 1][f] == sp.high.Floor
  {
    assert ThermalInfo.FanFailed(rounds[k].fanOk);
    assert Follows(rounds[k], levels[k], levels[k + 1]);
    assert Tells(sp, levels[k], levels[k + 1], speeds[k + 1], speeds[k], present[k]);
  }

  // an intake box: a failed fan, then all cool while fan 0 is out, then sensor 0 just above its first row
  const COOL: seq<real> := seq(7, _ => 20.0)
  const WARM: seq<real> := COOL[0 := 40.0]
  const OUT_AND_BACK: seq<Chassis> := [Chassis("intake", COOL, [false]), Chassis("intake", COOL, [true]), Chassis("intake", WARM, [true])]
  const OUT_AND_BACK_LEVELS: seq<int> := [-1, 3, 0, 1]
  const OUT_ONCE: seq<set<Fan>> := [{0}, {}, {0}]

  lemma IntakeRows(l: nat, i: nat)
    requires l < 3 && i < 7
    ensures |INTAKE.up| == |INTAKE.down| == 3 && |INTAKE.up[l]| == |INTAKE.down[l]| == 7
    ensures 33 <= INTAKE.down[l][i] <= INTAKE.up[l][i] && (i == 0 ==> INTAKE.up[l][0] == [38, 49, 52][l])
  {
    assert l == 0 || l == 1 || l == 2;
    assert i == 0 || i == 1 || i == 2 || i == 3 || i == 4 || i == 5 || i == 6;
  }

  lemma CoolThenWarm()
    ensures Moves(INTAKE, COOL, false, 3, 0) && Moves(INTAKE, WARM, false, 0, 1)
  {
    ConcreteTablesWellFormed("intake");
    forall l, i | 0 <= l < 3 && 0 <= i < 7 ensures 33 <= INTAKE.down[l][i] <= INTAKE.up[l][i] { IntakeRows(l, i); }
    IntakeRows(0, 0); IntakeRows(1, 0); IntakeRows(2, 0);
    CollectIff(INTAKE, COOL, 3, 0);
    assert WARM[0] > INTAKE.up[0][0] as real;
    CollectIff(INTAKE, WARM, 0, 1);
  }

  lemma OutAndBackLevels()
    ensures LevelsOf(OUT_AND_BACK, OUT_AND_BACK_LEVELS)
  {
    CoolThenWarm();
    assert !OUT_AND_BACK[0].fanOk[0] && ThermalInfo.FanFailed(OUT_AND_BACK[0].fanOk);
    assert Follows(OUT_AND_BACK[0], -1, 3) && Follows(OUT_AND_BACK[1], 3, 0) && Follows(OUT_AND_BACK[2], 0, 1);
  }

  /** It does happen: a fan that was out while the level fell is slowed down from 100 to 60 percent by a rise of the level. */
  lemma SlowingRiseHappens(speeds: seq<map<Fan, int>>)
    requires SpeedsOf(Speeds(30.0, 60.0, 80.0, 100.0), OUT_AND_BACK_LEVELS, OUT_ONCE, speeds)
    ensures LevelsOf(OUT_AND_BACK, OUT_AND_BACK_LEVELS)
    ensures 0 in speeds[2] && 0 in speeds[3] && speeds[2][0] == 100 && speeds[3][0] == 60
  {
    OutAndBackLevels();
    var sp := Speeds(30.0, 60.0, 80.0, 100.0);
    forall k | 0 <= k < 3
      ensures Tells(sp, OUT_AND_BACK_LEVELS[k], OUT_AND_BACK_LEVELS[k + 1], speeds[k + 1], speeds[k], OUT_ONCE[k])
    {
    }
    assert 0 in OUT_ONCE[0] && 0 !in OUT_ONCE[1] && 0 in OUT_ONCE[2];
  }
}
