/** Weighted choice of a service instance by walking the running sums of the weights. */
module Weighted {
  import opened Ints
  import opened Outcome

  datatype Instance = Instance(host: string, port: int, weight: int)

  /** The running sum of the first n weights, in 32-bit arithmetic. */
  function RunningSum(instances: seq<Instance>, n: nat): int
    requires n <= |instances|
  {
    if n == 0 then 0 else Wrap32(RunningSum(instances, n - 1) + instances[n - 1].weight)
  }

  function Total(instances: seq<Instance>): int {
    RunningSum(instances, |instances|)
  }

  /** The first instance from i on whose running sum reaches the draw. */
  function WalkFrom(instances: seq<Instance>, i: nat, draw: int): (r: Option<nat>)
    requires i <= |instances|
    ensures r.Some? ==> i <= r.value < |instances| && draw <= RunningSum(instances, r.value + 1)
    ensures r.Some? ==> forall n :: i < n <= r.value ==> draw > RunningSum(instances, n)
    ensures r.None? ==> forall n :: i < n <= |instances| ==> draw > RunningSum(instances, n)
    decreases |instances| - i
  {
    if i == |instances| then None
    else if draw <= RunningSum(instances, i + 1) then Some(i)
    else WalkFrom(instances, i + 1, draw)
  }

  function Walk(instances: seq<Instance>, draw: int): Option<nat> {
    WalkFrom(instances, 0, draw)
  }

  /** The walk always stops at an instance, whatever the weights: the code past the loop is
      never reached. */
  lemma WalkStops(instances: seq<Instance>, draw: int)
    requires 1 <= draw <= Total(instances)
    ensures Walk(instances, draw).Some?
  {
    assert instances != [];
  }

  /** The draws out of 1..total that choose instance i. */
  function Draws(instances: seq<Instance>, i: nat): set<int> {
    set d | 1 <= d <= Total(instances) && Walk(instances, d) == Some(i)
  }

  function ExactSum(instances: seq<Instance>, n: nat): int
    requires n <= |instances|
  {
    if n == 0 then 0 else ExactSum(instances, n - 1) + instances[n - 1].weight
  }

  /** No partial sum overflows an int. */
  predicate NoOverflow(instances: seq<Instance>) {
    forall n :: 0 <= n <= |instances| ==> MIN32 <= ExactSum(instances, n) <= MAX32
  }

  predicate NonNegative(instances: seq<Instance>) {
    forall i :: 0 <= i < |instances| ==> instances[i].weight >= 0
  }

  lemma {:induction false} SumsAreExact(instances: seq<Instance>, n: nat)
    requires n <= |instances| && NoOverflow(instances)
    ensures RunningSum(instances, n) == ExactSum(instances, n)
  {
    if n > 0 {
      SumsAreExact(instances, n - 1);
      assert MIN32 <= ExactSum(instances, n) <= MAX32;
    }
  }

  lemma {:induction false} SumsGrow(instances: seq<Instance>, m: nat, n: nat)
    requires m <= n <= |instances| && NoOverflow(instances) && NonNegative(instances)
    ensures 0 <= RunningSum(instances, m) <= RunningSum(instances, n)
    decreases n
  {
    SumsAreExact(instances, n);
    if m < n {
      SumsGrow(instances, m, n - 1);
      SumsAreExact(instances, n - 1);
    } else if n > 0 {
      SumsGrow(instances, n - 1, n - 1);
      SumsAreExact(instances, n - 1);
    }
  }

  lemma DrawsAreAnInterval(instances: seq<Instance>, i: nat, d: int)
    requires i < |instances| && NoOverflow(instances) && NonNegative(instances)
    ensures d in Draws(instances, i) <==> RunningSum(instances, i) < d <= RunningSum(instances, i + 1)
  {
    hide RunningSum, WalkFrom;
    SumsGrow(instances, i, i);
    SumsGrow(instances, i + 1, |instances|);
    if RunningSum(instances, i) < d <= RunningSum(instances, i + 1) {
      WalkStops(instances, d);
      var j := Walk(instances, d).value;
      if j < i { SumsGrow(instances, j + 1, i); }
    }
    StartsAtZero(instances);
  }

  lemma StartsAtZero(instances: seq<Instance>)
    ensures RunningSum(instances, 0) == 0
  {
  }

  predicate Within(d: int, lo: int, hi: int) {
    lo < d <= hi
  }

  function Interval(lo: int, hi: int): set<int> {
    set d | lo < d <= hi && Within(d, lo, hi)
  }

  lemma {:induction false} IntervalSize(lo: int, hi: int)
    requires lo <= hi
    ensures |Interval(lo, hi)| == hi - lo
    decreases hi - lo
  {
    if lo < hi {
      IntervalSize(lo, hi - 1);
      assert Interval(lo, hi) == Interval(lo, hi - 1) + {hi};
    }
  }

  /** With non-negative weights exactly weight_i of the draws choose instance i. */
  lemma ExactlyProportional(instances: seq<Instance>, i: nat)
    requires i < |instances| && NoOverflow(instances) && NonNegative(instances)
    ensures |Draws(instances, i)| == instances[i].weight
  {
    hide RunningSum, Draws;
    forall d ensures d in Draws(instances, i) <==> RunningSum(instances, i) < d <= RunningSum(instances, i + 1) {
      DrawsAreAnInterval(instances, i, d);
    }
    assert Draws(instances, i) == Interval(RunningSum(instances, i), RunningSum(instances, i + 1));
    SumsGrow(instances, i, i + 1);
    IntervalSize(RunningSum(instances, i), RunningSum(instances, i + 1));
    SumsAreExact(instances, i);
    SumsAreExact(instances, i + 1);
  }

  /** The choice is proportional to the weights exactly when none of them is negative. */
  lemma ProportionalExactly(instances: seq<Instance>)
    requires NoOverflow(instances)
    ensures (forall i :: 0 <= i < |instances| ==> |Draws(instances, i)| == instances[i].weight)
       <==> NonNegative(instances)
  {
    hide Draws, NoOverflow;
    if NonNegative(instances) {
      forall i | 0 <= i < |instances| ensures |Draws(instances, i)| == instances[i].weight {
        ExactlyProportional(instances, i);
      }
    }
  }

  /** The first instance whose running sum reaches the draw. */
  predicate ChosenBy(instances: seq<Instance>, draw: int, r: Option<Instance>) {
    exists i :: 0 <= i < |instances| && r == Some(instances[i]) && draw <= RunningSum(instances, i + 1)
                && forall n :: 0 < n <= i ==> RunningSum(instances, n) < draw
  }

  /** What the weighted selection returns, for a generator of numbers in a range. */
  function Choice(instances: seq<Instance>, roll: (int, int) -> int): Option<Instance> {
    if instances == [] then None
    else if Total(instances) <= 0 then Uniform(instances, roll)
    else
      match Walk(instances, roll(1, Total(instances)))
      case None => None
      case Some(i) => Some(instances[i])
  }

  function Uniform(instances: seq<Instance>, roll: (int, int) -> int): Option<Instance> {
    if instances == [] then None
    else
      var i := roll(0, |instances| - 1);
      if 0 <= i < |instances| then Some(instances[i]) else None
  }

  /** uniform_int_distribution stays within its bounds. */
  ghost predicate InRange(roll: (int, int) -> int) {
    forall lo, hi :: lo <= hi ==> lo <= roll(lo, hi) <= hi
  }
}

module Discovery {
  import opened Ints
  import opened Outcome
  import opened Weighted

  class ServiceDiscovery {
    var instanceCache: map<string, seq<Instance>>

    constructor ()
      ensures instanceCache == map[]
    {
      instanceCache := map[];
    }

    function GetInstances(service: string): seq<Instance>
      reads this
    {
      if service in instanceCache then instanceCache[service] else []
    }

    method SelectInstance(service: string, roll: (int, int) -> int) returns (r: Option<Instance>)
      requires InRange(roll)
      ensures r == Uniform(GetInstances(service), roll)
      ensures r.None? <==> GetInstances(service) == []
      ensures var all := GetInstances(service); all != [] ==> r == Some(all[roll(0, |all| - 1)])
    {
      var instances := GetInstances(service);
      if instances == [] { return None; }
      var index := roll(0, |instances| - 1);
      r := Some(instances[index]);
    }

    /** An instance is always chosen when there is one, and never by falling off the loop. */
    method SelectInstanceWeighted(service: string, roll: (int, int) -> int) returns (r: Option<Instance>)
      requires InRange(roll)
      ensures r == Choice(GetInstances(service), roll)
      ensures r.None? <==> GetInstances(service) == []
      ensures var all := GetInstances(service); all != [] && Total(all) <= 0 ==> r == Some(all[roll(0, |all| - 1)])
      ensures var all := GetInstances(service);
              Total(all) > 0 ==> ChosenBy(all, roll(1, Total(all)), r)
    {
      hide Wrap32, WalkFrom;
      var instances := GetInstances(service);
      if instances == [] { return None; }
      var totalWeight := 0;
      for i := 0 to |instances|
        invariant totalWeight == RunningSum(instances, i)
      {
        totalWeight := Wrap32(totalWeight + instances[i].weight);
      }
      if totalWeight <= 0 {
        r := SelectInstance(service, roll);
        return;
      }
      var randomWeight := roll(1, totalWeight);
      WalkStops(instances, randomWeight);
      var currentWeight, i := 0, 0;
      while i < |instances|
        invariant 0 <= i <= |instances| && currentWeight == RunningSum(instances, i)
        invariant Walk(instances, randomWeight).value >= i
      {
        currentWeight := Wrap32(currentWeight + instances[i].weight);
        assert currentWeight == RunningSum(instances, i + 1);
        if randomWeight <= currentWeight { return Some(instances[i]); }
        i := i + 1;
      }
      assert false;
    }
  }
}
