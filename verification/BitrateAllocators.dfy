/** The allocator as the object it is: loops over the observer list and a local
    allocation map, refining the functions of `AllocationRules` and the transitions of
    `AllocatorMachine`.
 */
module BitrateAllocators {
  import opened Options
  import opened EvenShares
  import opened Observers
  import opened Distribution
  import opened AllocationRules
  import M = AllocatorMachine
  import R = AllocatorRecords

  /** The part of a call that listens to the allocator and mirrors its limits. */
  class SendLimits {
    var minAllocatedSendBitrate: nat
    var configuredMaxPadding: nat
    ghost var heard: seq<M.Limits>

    constructor ()
      ensures minAllocatedSendBitrate == 0 && configuredMaxPadding == 0 && heard == []
    {
      minAllocatedSendBitrate, configuredMaxPadding, heard := 0, 0, [];
    }

    method OnAllocationLimitsChanged(minSend: nat, maxPadding: nat)
      modifies this
      ensures minAllocatedSendBitrate == minSend && configuredMaxPadding == maxPadding
      ensures heard == old(heard) + [M.Limits(minSend, maxPadding)]
    {
      minAllocatedSendBitrate, configuredMaxPadding := minSend, maxPadding;
      heard := heard + [M.Limits(minSend, maxPadding)];
    }
  }

  class BitrateAllocator {
    const limitObserver: SendLimits
    var configs: seq<Config>
    var lastBitrate: nat
    var lastNonZeroBitrate: nat
    var totalRequestedMin: nat
    var totalRequestedPadding: nat

    ghost function Model(): M.State
      reads this, limitObserver
    {
      M.State(configs, lastBitrate, lastNonZeroBitrate,
              M.Limits(totalRequestedMin, totalRequestedPadding), limitObserver.heard)
    }

    /** The limit observer's copy of the limits is up to date. */
    ghost predicate Mirrored()
      reads this, limitObserver
    {
      && limitObserver.minAllocatedSendBitrate == totalRequestedMin
      && limitObserver.configuredMaxPadding == totalRequestedPadding
    }

    ghost predicate Valid()
      reads this, limitObserver
    {
      M.Valid(Model()) && Mirrored()
    }

    constructor (observer: SendLimits)
      requires observer.heard == []
      requires observer.minAllocatedSendBitrate == 0 && observer.configuredMaxPadding == 0
      ensures Valid() && limitObserver == observer
      ensures Model() == M.INITIAL && lastNonZeroBitrate == 300000
    {
      limitObserver := observer;
      configs, lastBitrate, lastNonZeroBitrate := [], 0, M.DEFAULT_BITRATE_BPS;
      totalRequestedMin, totalRequestedPadding := 0, 0;
      new;
      M.InitialValid();
    }

    // ---------- reading the list ----------

    method FindObserverConfig(observer: ObserverId) returns (k: nat)
      ensures k == M.Find(configs, observer)
    {
      k := 0;
      while k < |configs| && configs[k].observer != observer
        invariant k <= |configs|
        invariant M.Find(configs, observer) == k + M.Find(configs[k..], observer)
      {
        k := k + 1;
      }
    }

    /** A best guess until the observer has an allocation. */
    method GetStartBitrate(observer: ObserverId) returns (rate: int)
      requires Valid()
      ensures var k := M.Find(configs, observer);
              if k < |configs| && configs[k].granted != -1 then rate == configs[k].granted
              else
                var n := if k < |configs| then |configs| else |configs| + 1;
                n * rate <= lastNonZeroBitrate < n * (rate + 1)
    {
      var k := FindObserverConfig(observer);
      if k == |configs| {
        QuotientBounds(lastNonZeroBitrate, |configs| + 1);
        rate := lastNonZeroBitrate / (|configs| + 1);
      } else if configs[k].granted == -1 {
        QuotientBounds(lastNonZeroBitrate, |configs|);
        rate := lastNonZeroBitrate / |configs|;
      } else {
        rate := configs[k].granted;
      }
    }

    method StartFrom(base: Baseline) returns (alloc: Allocation)
      ensures alloc == BaseMap(base, configs)
    {
      alloc := map[];
      for i := 0 to |configs|
        invariant alloc == BaseMap(base, configs[..i])
      {
        PrefixStep(base, configs, i);
        alloc := alloc[configs[i].observer := BaseRate(base, configs[i])];
      }
      assert configs[..|configs|] == configs;
    }

    method EnoughBitrateForAllObservers(bitrate: nat, sumMin: nat) returns (enough: bool)
      requires configs != [] && sumMin == SumMin(configs)
      ensures enough == Enough(configs, bitrate)
    {
      if bitrate < sumMin {
        return false;
      }
      var extra := (bitrate - sumMin) / |configs|;
      for i := 0 to |configs|
        invariant forall j :: 0 <= j < i ==> configs[j].minBitrate + extra >= Required(configs[j])
      {
        if configs[i].minBitrate + extra < Required(configs[i]) {
          return false;
        }
      }
      return true;
    }

    // ---------- the even split ----------

    method OrderByMax(includeZero: bool, alloc: Allocation) returns (order: seq<Config>)
      requires Covers(configs, alloc)
      ensures order == Order(configs, includeZero, alloc)
    {
      order := [];
      for i := 0 to |configs|
        invariant order == Order(configs[..i], includeZero, alloc)
      {
        assert configs[..i + 1][..i] == configs[..i];
        if includeZero || alloc[configs[i].observer] != 0 {
          order := Insert(configs[i], order);
        }
      }
      assert configs[..|configs|] == configs;
    }

    /** There is something left to hand out at every iteration. */
    method DistributeBitrateEvenly(bitrate: nat, includeZero: bool, multiplier: nat, base: Allocation)
      returns (alloc: Allocation)
      requires Covers(configs, base) && bitrate > 0
      ensures alloc == Distribute(configs, bitrate, includeZero, multiplier, base)
    {
      var order := OrderByMax(includeZero, base);
      var left: int := bitrate;
      alloc := base;
      while order != []
        invariant Covers(order, alloc)
        invariant Spread(order, left, multiplier, alloc)
               == Distribute(configs, bitrate, includeZero, multiplier, base)
        invariant order != [] ==> left > 0
        decreases |order|
      {
        assert left > 0;
        var c, extra := order[0], left / |order|;
        var total, cap := extra + alloc[c.observer], multiplier * c.maxBitrate;
        if |order| > 1 {
          ProductOrder(left, 2, |order|);
          QuotientBelow(left, |order|, left);
        }
        QuotientBounds(left, |order|);
        left := left - extra;
        if total > cap {
          left := left + (total - cap);
          total := cap;
        }
        alloc := alloc[c.observer := total];
        order := order[1..];
      }
    }

    // ---------- the regimes ----------

    method AdmitObservers(paused: bool, alloc0: Allocation, remaining0: int)
      returns (alloc: Allocation, remaining: int)
      ensures Grants(alloc, remaining) == AdmitPass(configs, paused, Grants(alloc0, remaining0))
    {
      alloc, remaining := alloc0, remaining0;
      for i := 0 to |configs|
        invariant AdmitPass(configs[i..], paused, Grants(alloc, remaining))
               == AdmitPass(configs, paused, Grants(alloc0, remaining0))
      {
        assert configs[i..][1..] == configs[i + 1..];
        if Eligible(configs[i], paused) {
          var required := Required(configs[i]);
          if remaining >= required {
            alloc := alloc[configs[i].observer := required];
            remaining := remaining - required;
          }
        }
      }
    }

    method LowRateAllocation(bitrate: nat) returns (alloc: Allocation)
      requires Sane(configs)
      ensures alloc == LowRate(configs, bitrate)
    {
      LowGrantsMeaning(configs, bitrate);
      alloc := map[];
      var remaining: int := bitrate;
      for i := 0 to |configs|
        invariant alloc == BaseMap(EnforcedOnly, configs[..i])
        invariant remaining == bitrate - SumEnforcedMin(configs[..i])
      {
        PrefixStep(EnforcedOnly, configs, i);
        var rate := 0;
        if configs[i].enforceMin {
          rate := configs[i].minBitrate;
        }
        alloc := alloc[configs[i].observer := rate];
        remaining := remaining - rate;
      }
      assert configs[..|configs|] == configs;
      if remaining > 0 {
        alloc, remaining := AdmitObservers(false, alloc, remaining);
      }
      if remaining > 0 {
        alloc, remaining := AdmitObservers(true, alloc, remaining);
      }
      if remaining > 0 {
        alloc := DistributeBitrateEvenly(remaining, false, 1, alloc);
      }
    }

    method NormalRateAllocation(bitrate: nat, sumMin: nat) returns (alloc: Allocation)
      requires sumMin == SumMin(configs) <= bitrate
      ensures alloc == NormalRate(configs, bitrate)
    {
      alloc := StartFrom(Minimum);
      if bitrate - sumMin > 0 {
        alloc := DistributeBitrateEvenly(bitrate - sumMin, true, 1, alloc);
      }
    }

    method MaxRateAllocation(bitrate: nat, sumMax: nat) returns (alloc: Allocation)
      requires sumMax == SumMax(configs) < bitrate
      ensures alloc == MaxRate(configs, bitrate)
    {
      alloc := map[];
      var left: int := bitrate;
      for i := 0 to |configs|
        invariant alloc == BaseMap(Maximum, configs[..i])
        invariant left == bitrate - SumMax(configs[..i])
      {
        PrefixStep(Maximum, configs, i);
        alloc := alloc[configs[i].observer := configs[i].maxBitrate];
        left := left - configs[i].maxBitrate;
      }
      assert configs[..|configs|] == configs;
      alloc := DistributeBitrateEvenly(left, true, TRANSMISSION_MAX_MULTIPLIER, alloc);
    }

    method AllocateBitrates(bitrate: nat) returns (alloc: Allocation)
      requires Sane(configs)
      ensures alloc == Allocate(configs, bitrate)
    {
      if configs == [] {
        return map[];
      }
      if bitrate == 0 {
        alloc := StartFrom(Nothing);
        return;
      }
      var sumMin, sumMax := 0, 0;
      for i := 0 to |configs|
        invariant sumMin == SumMin(configs[..i]) && sumMax == SumMax(configs[..i])
      {
        PrefixStep(Minimum, configs, i);
        PrefixStep(Maximum, configs, i);
        sumMin := sumMin + configs[i].minBitrate;
        sumMax := sumMax + configs[i].maxBitrate;
      }
      assert configs[..|configs|] == configs;
      var enough := EnoughBitrateForAllObservers(bitrate, sumMin);
      if !enough {
        alloc := LowRateAllocation(bitrate);
      } else if bitrate <= sumMax {
        alloc := NormalRateAllocation(bitrate, sumMin);
      } else {
        alloc := MaxRateAllocation(bitrate, sumMax);
      }
    }

    // ---------- telling the observers ----------

    method TellObservers(alloc: Allocation, reply: M.Reply)
      requires M.Usable(configs, alloc) && M.Honest(reply)
      modifies this`configs
      ensures configs == M.TellAll(old(configs), alloc, reply)
      ensures R.AllTold(old(configs), configs, alloc, reply)
    {
      for i := 0 to |configs|
        invariant |configs| == |old(configs)|
        invariant forall j :: 0 <= j < i ==>
                                configs[j] == M.Told(old(configs)[j], alloc[old(configs)[j].observer], reply)
        invariant forall j :: i <= j < |configs| ==> configs[j] == old(configs)[j]
      {
        var rate := alloc[configs[i].observer];
        var protection := reply(configs[i].observer, rate);
        if rate > 0 {
          configs := configs[i := configs[i].(mediaRatio := MediaRatio(rate, protection))];
        }
        configs := configs[i := configs[i].(granted := rate)];
      }
      R.TellAllAnswers(old(configs), alloc, reply);
    }

    method UpdateAllocationLimits()
      modifies this`totalRequestedMin, this`totalRequestedPadding, limitObserver
      requires Mirrored()
      ensures Model() == M.UpdateLimits(old(Model())) && Mirrored()
    {
      var totalMin, totalPadding := 0, 0;
      for i := 0 to |configs|
        invariant totalMin + SumEnforcedMin(configs[i..]) == SumEnforcedMin(configs)
        invariant totalPadding + M.SumPadding(configs[i..]) == M.SumPadding(configs)
      {
        assert configs[i..][1..] == configs[i + 1..];
        var padding := configs[i].padUp;
        if configs[i].enforceMin {
          totalMin := totalMin + configs[i].minBitrate;
        } else if configs[i].granted == 0 {
          padding := Max(Required(configs[i]), padding);
        }
        totalPadding := totalPadding + padding;
      }
      if totalPadding == totalRequestedPadding && totalMin == totalRequestedMin {
        return;
      }
      totalRequestedMin, totalRequestedPadding := totalMin, totalPadding;
      limitObserver.OnAllocationLimitsChanged(totalMin, totalPadding);
    }

    // ---------- the public operations ----------

    /** `told` holds the rate each observer was told. */
    method OnNetworkChanged(target: nat, reply: M.Reply) returns (told: Allocation)
      requires Valid() && M.Honest(reply)
      modifies this, limitObserver
      ensures Valid() && Model() == M.Step(old(Model()), M.NetworkChanged(target, reply))
      ensures told == M.Rates(old(Model()), M.NetworkChanged(target, reply))
      ensures R.AllTold(old(configs), configs, told, reply)
    {
      M.StepKeepsValid(Model(), M.NetworkChanged(target, reply));
      AllocateCovers(configs, target);
      lastBitrate := target;
      lastNonZeroBitrate := if target > 0 then target else lastNonZeroBitrate;
      told := AllocateBitrates(target);
      TellObservers(told, reply);
      UpdateAllocationLimits();
    }

    method AddObserver(
      observer: ObserverId, minBitrate: nat, maxBitrate: nat, padUp: nat, enforceMin: bool, reply: M.Reply)
      returns (told: Allocation)
      requires Valid() && M.Honest(reply)
      modifies this, limitObserver
      ensures Valid()
      ensures var e := M.ObserverAdded(observer, minBitrate, maxBitrate, padUp, enforceMin, reply);
              && Model() == M.Step(old(Model()), e) && told == M.Rates(old(Model()), e)
              && R.AddedProperly(old(configs), lastBitrate > 0, e, configs, told)
    {
      ghost var e := M.ObserverAdded(observer, minBitrate, maxBitrate, padUp, enforceMin, reply);
      M.StepKeepsValid(Model(), e);
      R.AddedRecords(Model(), e);
      M.RegisterSane(configs, e);
      var k := FindObserverConfig(observer);
      if k < |configs| {
        configs := configs[k := configs[k].(minBitrate := minBitrate, maxBitrate := maxBitrate,
                                            padUp := padUp, enforceMin := enforceMin)];
      } else {
        configs := configs + [Config(observer, minBitrate, maxBitrate, padUp, enforceMin, -1, 1.0)];
      }
      if lastBitrate > 0 {
        AllocateCovers(configs, lastBitrate);
        told := AllocateBitrates(lastBitrate);
        TellObservers(told, reply);
      } else {
        var _ := AllocateBitrates(lastNonZeroBitrate);
        told := map[observer := 0];
      }
      UpdateAllocationLimits();
    }

    method RemoveObserver(observer: ObserverId)
      requires Valid()
      modifies this, limitObserver
      ensures Valid() && Model() == M.Step(old(Model()), M.ObserverRemoved(observer))
      ensures !R.Present(configs, observer)
      ensures forall c :: c in configs <==> c in old(configs) && c.observer != observer
    {
      R.RemovedRecords(Model(), observer);
      M.UnregisterSane(configs, observer);
      M.StepKeepsValid(Model(), M.ObserverRemoved(observer));
      var k := FindObserverConfig(observer);
      if k < |configs| {
        configs := configs[..k] + configs[k + 1..];
      }
      UpdateAllocationLimits();
    }
  }

  /** A call passes an estimate on to its allocator and, while sending video, computes the
      rate the pacer may send at. That rate covers everything the allocator has handed out,
      enforced minima included; what a call records of it, in whole kbps, is short of it by
      less than 1 kbps. */
  method OnCallNetworkChanged(allocator: BitrateAllocator, target: nat, sendingVideo: bool, reply: M.Reply)
    returns (pacerRate: Option<nat>, recorded: Option<nat>)
    requires allocator.Valid() && M.Honest(reply)
    modifies allocator, allocator.limitObserver
    ensures allocator.Valid()
    ensures allocator.Model() == M.Step(old(allocator.Model()), M.NetworkChanged(target, reply))
    ensures pacerRate.Some? <==> target > 0 && sendingVideo
    ensures pacerRate.Some? ==>
              && pacerRate.value == Max(target, allocator.limitObserver.minAllocatedSendBitrate)
              && M.SumGranted(allocator.configs) <= pacerRate.value
    ensures recorded.Some? <==> pacerRate.Some?
    ensures recorded.Some? ==>
              && 1000 * recorded.value <= pacerRate.value
              && M.SumGranted(allocator.configs) < 1000 * recorded.value + 1000
  {
    ghost var cs := allocator.configs;
    var _ := allocator.OnNetworkChanged(target, reply);
    if target == 0 || !sendingVideo {
      return None, None;
    }
    AllocateCovers(cs, target);
    AllocateBudget(cs, target);
    M.TellAllTotals(cs, Allocate(cs, target), reply);
    var rate := Max(target, allocator.limitObserver.minAllocatedSendBitrate);
    return Some(rate), Some(rate / 1000);
  }
}
