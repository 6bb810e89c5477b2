/** What each regime achieves as a whole: water-filling above the maxima, the exact
    condition for a lossless split between minima and maxima, and the admission rule
    and ledger below the minima.
 */
module RegimeTheorems {
  import opened EvenShares
  import opened Observers
  import opened Distribution
  import opened AllocationRules

  // ---------- above the sum of maxima ----------

  lemma {:induction false} HeadroomSum(order: seq<Config>, multiplier: nat, alloc: Allocation)
    requires Covers(order, alloc)
    ensures Sum(Headrooms(order, multiplier, alloc)) == multiplier * SumMax(order) - Total(order, alloc)
  {
    if order != [] {
      HeadroomSum(order[1..], multiplier, alloc);
      assert Headrooms(order, multiplier, alloc)[1..] == Headrooms(order[1..], multiplier, alloc);
    }
  }

  /** Above the maxima every observer's headroom is its own maximum, smallest first. */
  lemma MaxHeadrooms(cs: seq<Config>)
    requires Sane(cs)
    ensures var hs := Headrooms(Order(cs, true, BaseMap(Maximum, cs)), 2, BaseMap(Maximum, cs));
            && Ascending(hs) && NonNegative(hs) && |hs| == |cs|
            && Sum(hs) == SumMax(cs)
            && (forall k :: 0 <= k < |hs| ==> hs[k] == Order(cs, true, BaseMap(Maximum, cs))[k].maxBitrate)
  {
    var base := BaseMap(Maximum, cs);
    var order := Order(cs, true, base);
    BaseMapMeaning(Maximum, cs);
    OrderMembers(cs, true, base);
    OrderSorted(cs, true, base);
    OrderTotal(cs, true, base, base);
    forall k | 0 <= k < |order| ensures base[order[k].observer] == order[k].maxBitrate {
      assert order[k] in order;
    }
    TotalOfRates(Maximum, order, base);
    HeadroomSum(order, 2, base);
  }

  /** The total above the maxima: everything, up to twice the maxima. */
  lemma MaxRateTotal(cs: seq<Config>, bitrate: nat)
    requires Sane(cs) && SumMax(cs) < bitrate
    ensures Covers(cs, MaxRate(cs, bitrate))
    ensures Total(cs, MaxRate(cs, bitrate)) == Min(bitrate, 2 * SumMax(cs))
  {
    var base := BaseMap(Maximum, cs);
    var hs := Headrooms(Order(cs, true, base), 2, base);
    var extra := bitrate - SumMax(cs);
    MaxHeadrooms(cs);
    BaseMapMeaning(Maximum, cs);
    DistributeTotal(cs, extra, true, 2, base);
    AscendingBelowSuffixAverage(hs);
    if extra <= SumMax(cs) {
      HandsOutAll(hs, extra);
    } else {
      FillsUp(hs, extra);
    }
  }

  /** The common level to which `MaxRate` fills the observers. */
  ghost function MaxRateLevel(cs: seq<Config>, bitrate: nat): int
    requires Sane(cs) && cs != []
  {
    MaxHeadrooms(cs);
    Level(Headrooms(Order(cs, true, BaseMap(Maximum, cs)), 2, BaseMap(Maximum, cs)), bitrate - SumMax(cs))
  }

  /** What an observer gets above its maximum, and where in the visiting order. */
  lemma MaxRateExtra(cs: seq<Config>, bitrate: nat, i: nat) returns (k: nat)
    requires Sane(cs) && i < |cs| && SumMax(cs) < bitrate
    ensures cs[i].observer in MaxRate(cs, bitrate)
    ensures var hs := Headrooms(Order(cs, true, BaseMap(Maximum, cs)), 2, BaseMap(Maximum, cs));
            && k < |hs| && hs[k] == cs[i].maxBitrate
            && MaxRate(cs, bitrate)[cs[i].observer] == cs[i].maxBitrate + Extras(hs, bitrate - SumMax(cs))[k]
  {
    MaxHeadrooms(cs);
    BaseMapMeaning(Maximum, cs);
    k := DistributeExtra(cs, bitrate - SumMax(cs), true, 2, BaseMap(Maximum, cs), i);
  }

  /** Water-filling: above its maximum, every observer gets the common level, or its
      maximum again if that is less, to within 1 bps. */
  lemma MaxRateWaterLevel(cs: seq<Config>, bitrate: nat, i: nat)
    requires Sane(cs) && i < |cs| && SumMax(cs) < bitrate
    ensures cs[i].observer in MaxRate(cs, bitrate)
    ensures var extra := MaxRate(cs, bitrate)[cs[i].observer] - cs[i].maxBitrate;
            var level := MaxRateLevel(cs, bitrate);
            Min(cs[i].maxBitrate, level) <= extra <= Min(cs[i].maxBitrate, level + 1)
  {
    MaxHeadrooms(cs);
    var k := MaxRateExtra(cs, bitrate, i);
    WaterLevel(Headrooms(Order(cs, true, BaseMap(Maximum, cs)), 2, BaseMap(Maximum, cs)), bitrate - SumMax(cs), k);
  }

  /** Fairness: nobody's extra exceeds, by more than 1 bps, that of an observer still
      below its cap. */
  lemma MaxRateFair(cs: seq<Config>, bitrate: nat, i: nat, j: nat)
    requires Sane(cs) && i < |cs| && j < |cs| && SumMax(cs) < bitrate
    ensures cs[i].observer in MaxRate(cs, bitrate) && cs[j].observer in MaxRate(cs, bitrate)
    ensures var extraI := MaxRate(cs, bitrate)[cs[i].observer] - cs[i].maxBitrate;
            var extraJ := MaxRate(cs, bitrate)[cs[j].observer] - cs[j].maxBitrate;
            extraI < cs[i].maxBitrate ==> extraJ <= extraI + 1
  {
    MaxRateWaterLevel(cs, bitrate, i);
    MaxRateWaterLevel(cs, bitrate, j);
  }

  /** A maximum of 0 is a cap, not the absence of one: with enough for all the observer gets
      nothing, unless exactly the minima are on offer and it has one; in the low regime it
      keeps a grant only when nothing is left to split. */
  lemma ZeroMaximumIff(cs: seq<Config>, bitrate: nat, i: nat)
    requires Sane(cs) && i < |cs| && cs[i].maxBitrate == 0 && bitrate > 0
    ensures cs[i].observer in Allocate(cs, bitrate) && Covers(cs, LowGrants(cs, bitrate).alloc)
    ensures var c, rate, g := cs[i], Allocate(cs, bitrate)[cs[i].observer], LowGrants(cs, bitrate);
            rate > 0 <==>
            if Enough(cs, bitrate) then c.minBitrate > 0 && bitrate == SumMin(cs) <= SumMax(cs)
            else g.alloc[c.observer] > 0 && g.remaining <= 0
  {
    AllocateAt(cs, bitrate, i);
    LowRateCovers(cs, bitrate);
    if !Enough(cs, bitrate) {
      ZeroMaximumLow(cs, bitrate, i);
    } else if bitrate <= SumMax(cs) {
      ZeroMaximumNormal(cs, bitrate, i);
    } else {
      MaxRateAt(cs, bitrate, i);
    }
  }

  lemma ZeroMaximumLow(cs: seq<Config>, bitrate: nat, i: nat)
    requires Sane(cs) && i < |cs| && cs[i].maxBitrate == 0
    ensures Covers(cs, LowGrants(cs, bitrate).alloc) && Covers(cs, LowRate(cs, bitrate))
    ensures var g := LowGrants(cs, bitrate);
            LowRate(cs, bitrate)[cs[i].observer] > 0 <==> g.alloc[cs[i].observer] > 0 && g.remaining <= 0
  {
    var g := LowGrants(cs, bitrate);
    LowGrantsMeaning(cs, bitrate);
    LowRateShares(cs, bitrate, i);
    assert Granted(cs[i], bitrate, g);
  }

  lemma ZeroMaximumNormal(cs: seq<Config>, bitrate: nat, i: nat)
    requires Sane(cs) && i < |cs| && cs[i].maxBitrate == 0 && SumMin(cs) <= bitrate
    ensures cs[i].observer in NormalRate(cs, bitrate)
    ensures NormalRate(cs, bitrate)[cs[i].observer] == if bitrate == SumMin(cs) then cs[i].minBitrate else 0
  {
    var rest, base := bitrate - SumMin(cs), BaseMap(Minimum, cs);
    BaseMapMeaning(Minimum, cs);
    if rest > 0 {
      OrderMembers(cs, true, base);
      ShareBounds(rest, |cs|);
      DistributeAt(cs, rest, true, 1, base, i);
    }
  }

  // ---------- between the sums of minima and maxima ----------

  /** The room between minimum and maximum, in visiting order. */
  function NormalHeadrooms(cs: seq<Config>): seq<int> {
    Headrooms(Order(cs, true, BaseMap(Minimum, cs)), 1, BaseMap(Minimum, cs))
  }

  lemma NormalHeadroomsMeaning(cs: seq<Config>)
    requires Sane(cs)
    ensures Sum(NormalHeadrooms(cs)) == SumMax(cs) - SumMin(cs)
  {
    var base, maxima := BaseMap(Minimum, cs), BaseMap(Maximum, cs);
    var order := Order(cs, true, base);
    BaseMapMeaning(Minimum, cs);
    BaseMapMeaning(Maximum, cs);
    OrderMembers(cs, true, base);
    OrderTotal(cs, true, base, base);
    OrderTotal(cs, true, base, maxima);
    forall k | 0 <= k < |order| ensures maxima[order[k].observer] == order[k].maxBitrate {
      assert order[k] in order;
    }
    TotalOfRates(Maximum, order, maxima);
    HeadroomSum(order, 1, base);
  }

  lemma NormalRateTotal(cs: seq<Config>, bitrate: nat)
    requires Sane(cs) && SumMin(cs) <= bitrate
    ensures Covers(cs, NormalRate(cs, bitrate))
    ensures Total(cs, NormalRate(cs, bitrate))
         == SumMin(cs) + if bitrate == SumMin(cs) then 0 else Sum(Extras(NormalHeadrooms(cs), bitrate - SumMin(cs)))
  {
    BaseMapMeaning(Minimum, cs);
    if SumMin(cs) < bitrate {
      DistributeTotal(cs, bitrate - SumMin(cs), true, 1, BaseMap(Minimum, cs));
    }
  }

  /** Every bitrate that the code allocates in the normal regime is handed out completely. */
  ghost predicate NormalUsesAll(cs: seq<Config>)
    requires Sane(cs) && cs != []
  {
    forall bitrate: nat :: bitrate <= SumMax(cs) && Enough(cs, bitrate) ==> UsedUp(cs, bitrate)
  }

  ghost predicate UsedUp(cs: seq<Config>, bitrate: nat)
    requires Sane(cs)
  {
    Covers(cs, Allocate(cs, bitrate)) && Total(cs, Allocate(cs, bitrate)) == bitrate
  }

  lemma UsedUpIfBelowAverage(cs: seq<Config>, bitrate: nat)
    requires Sane(cs) && cs != [] && bitrate <= SumMax(cs) && Enough(cs, bitrate)
    requires BelowSuffixAverage(NormalHeadrooms(cs)) || bitrate == SumMin(cs)
    ensures UsedUp(cs, bitrate)
  {
    AllocateBudget(cs, bitrate);
    if bitrate > 0 {
      NormalRateTotal(cs, bitrate);
      if bitrate > SumMin(cs) {
        NormalHeadroomsMeaning(cs);
        HandsOutAll(NormalHeadrooms(cs), bitrate - SumMin(cs));
      }
    }
  }

  lemma BelowAverageIfMaximaUsedUp(cs: seq<Config>)
    requires Sane(cs) && cs != [] && Enough(cs, SumMax(cs)) && SumMin(cs) < SumMax(cs) && UsedUp(cs, SumMax(cs))
    ensures BelowSuffixAverage(NormalHeadrooms(cs))
  {
    NormalHeadroomsMeaning(cs);
    NormalRateTotal(cs, SumMax(cs));
    FullSplitBelowSuffixAverage(NormalHeadrooms(cs));
  }

  /** The normal regime uses all of every bitrate that reaches it exactly when no observer's
      room, in order of maximum bitrate, exceeds the average room from it onwards; unless
      the sum of maxima does not reach the regime, or there is no room at all. */
  lemma NormalUsesAllIff(cs: seq<Config>)
    requires Sane(cs) && cs != []
    ensures NormalUsesAll(cs) <==>
            || BelowSuffixAverage(NormalHeadrooms(cs))
            || !Enough(cs, SumMax(cs))
            || SumMin(cs) == SumMax(cs)
  {
    if NormalUsesAll(cs) && Enough(cs, SumMax(cs)) && SumMin(cs) != SumMax(cs) {
      BelowAverageIfMaximaUsedUp(cs);
    }
    forall bitrate: nat | bitrate <= SumMax(cs) && Enough(cs, bitrate)
      ensures Enough(cs, SumMax(cs))
      ensures BelowSuffixAverage(NormalHeadrooms(cs)) || SumMin(cs) == SumMax(cs) ==> UsedUp(cs, bitrate)
    {
      EnoughMonotone(cs, bitrate, SumMax(cs));
      if BelowSuffixAverage(NormalHeadrooms(cs)) || SumMin(cs) == SumMax(cs) {
        UsedUpIfBelowAverage(cs, bitrate);
      }
    }
  }

  /** Two active observers with rooms of 100 and 0. */
  const UNEVEN := [Config(1, 0, 100, 0, false, 1, 1.0), Config(2, 101, 101, 0, false, 101, 1.0)]

  /** With 201 bps for them, half of the even split is lost. */
  lemma NormalLosesRate()
    ensures Sane(UNEVEN) && SumMin(UNEVEN) == 101 && SumMax(UNEVEN) == 201
    ensures Enough(UNEVEN, 201)
    ensures Covers(UNEVEN, Allocate(UNEVEN, 201)) && Total(UNEVEN, Allocate(UNEVEN, 201)) == 151
  {
    UnevenSums();
    UnevenHeadrooms();
    NormalRateTotal(UNEVEN, 201);
    assert [100, 0][1..] == [0];
    assert Extras([100, 0], 100) == [50, 0];
    assert Sum([50, 0]) == 50 by {
      assert [50, 0][1..] == [0];
    }
  }

  lemma UnevenSums()
    ensures SumMin(UNEVEN) == 101 && SumMax(UNEVEN) == 201
  {
    PairSums(UNEVEN, Minimum);
    PairSums(UNEVEN, Maximum);
  }

  lemma UnevenHeadrooms()
    ensures NormalHeadrooms(UNEVEN) == [100, 0]
  {
    var a, b, base := UNEVEN[0], UNEVEN[1], BaseMap(Minimum, UNEVEN);
    BaseMapMeaning(Minimum, UNEVEN);
    assert UNEVEN[..1] == [a] && [a][..0] == [] && [a][1..] == [];
    assert base[UNEVEN[0].observer] == 0 && base[UNEVEN[1].observer] == 101;
    assert Order([a], true, base) == [a];
    assert Insert(b, [a]) == [a, b];
    assert Order(UNEVEN, true, base) == [a, b];
  }

  // ---------- below: who is admitted ----------

  /** What an admitted observer was charged in its pass. */
  function Charge(c: Config, paused: bool, alloc: Allocation): nat
    requires c.observer in alloc
  {
    if Eligible(c, paused) && alloc[c.observer] == Required(c) then Required(c) else 0
  }

  function Charges(cs: seq<Config>, paused: bool, alloc: Allocation): nat
    requires Covers(cs, alloc)
  {
    if cs == [] then 0 else Charge(cs[0], paused, alloc) + Charges(cs[1..], paused, alloc)
  }

  lemma {:induction false} ChargesFrame(cs: seq<Config>, paused: bool, a: Allocation, b: Allocation)
    requires Covers(cs, a) && Covers(cs, b)
    requires forall i :: 0 <= i < |cs| && Eligible(cs[i], paused) ==> a[cs[i].observer] == b[cs[i].observer]
    ensures Charges(cs, paused, a) == Charges(cs, paused, b)
  {
    if cs != [] {
      ChargesFrame(cs[1..], paused, a, b);
    }
  }

  /** No eligible record already holds the rate it asks for. */
  ghost predicate Undecided(cs: seq<Config>, paused: bool, alloc: Allocation)
    requires Covers(cs, alloc)
  {
    forall i :: 0 <= i < |cs| && Eligible(cs[i], paused) && Required(cs[i]) > 0 ==>
                  alloc[cs[i].observer] != Required(cs[i])
  }

  /** First come, first served: a record is admitted exactly when what its predecessors
      in the pass left covers its requirement. */
  ghost predicate AdmittedInTurn(cs: seq<Config>, paused: bool, g: Grants, after: Allocation, i: nat)
    requires Covers(cs, g.alloc) && Covers(cs, after) && i < |cs|
  {
    after[cs[i].observer] ==
    if Eligible(cs[i], paused) && g.remaining - Charges(cs[..i], paused, after) >= Required(cs[i])
    then Required(cs[i]) else g.alloc[cs[i].observer]
  }

  lemma HeadCharge(cs: seq<Config>, paused: bool, g: Grants)
    requires UniqueObservers(cs) && Covers(cs, g.alloc) && Undecided(cs, paused, g.alloc) && cs != []
    ensures var after, next := AdmitPass(cs, paused, g), Admit(cs[0], paused, g);
            && Covers(cs, after.alloc)
            && next.remaining == g.remaining - Charge(cs[0], paused, after.alloc)
            && after.alloc[cs[0].observer] == next.alloc[cs[0].observer]
            && Covers(cs[1..], next.alloc) && Undecided(cs[1..], paused, next.alloc)
            && forall i :: 0 < i < |cs| ==> next.alloc[cs[i].observer] == g.alloc[cs[i].observer]
  {
    var rest, next := cs[1..], Admit(cs[0], paused, g);
    AdmitPassMeaning(rest, paused, next);
    assert Outside(rest, cs[0].observer);
    assert forall k :: 0 <= k < |rest| ==> rest[k] == cs[k + 1];
  }

  lemma {:induction false} AdmitPassRule(cs: seq<Config>, paused: bool, g: Grants, i: nat)
    requires UniqueObservers(cs) && Covers(cs, g.alloc) && Undecided(cs, paused, g.alloc) && i <= |cs|
    ensures var after := AdmitPass(cs, paused, g);
            && Covers(cs, after.alloc)
            && after.remaining == g.remaining - Charges(cs, paused, after.alloc)
            && (i < |cs| ==> AdmittedInTurn(cs, paused, g, after.alloc, i))
  {
    if cs != [] {
      HeadCharge(cs, paused, g);
      AdmitPassRule(cs[1..], paused, Admit(cs[0], paused, g), if i == 0 then 0 else i - 1);
      if 0 < i < |cs| {
        assert cs[..i][1..] == cs[1..][..i - 1];
      }
    }
  }

  /** The rule of the low regime, without its passes: enforced minima first, then active
      observers in order of registration, then paused ones from what is left. */
  lemma LowRateAdmission(cs: seq<Config>, bitrate: nat, i: nat)
    requires Sane(cs) && i < |cs|
    ensures Covers(cs, LowGrants(cs, bitrate).alloc)
    ensures var c, alloc := cs[i], LowGrants(cs, bitrate).alloc;
            var afterEnforced := bitrate - SumEnforcedMin(cs);
            var afterActive := afterEnforced - Charges(cs, false, alloc);
            alloc[c.observer] ==
            if Paused(c) then
              if afterActive > 0 && afterActive - Charges(cs[..i], true, alloc) >= Required(c)
              then Required(c) else BaseRate(EnforcedOnly, c)
            else if c.enforceMin then c.minBitrate
            else if afterEnforced > 0 && afterEnforced - Charges(cs[..i], false, alloc) >= Required(c)
            then Required(c) else 0
    ensures LowGrants(cs, bitrate).remaining
         == bitrate - SumEnforcedMin(cs)
            - Charges(cs, false, LowGrants(cs, bitrate).alloc) - Charges(cs, true, LowGrants(cs, bitrate).alloc)
  {
    BaseMapMeaning(EnforcedOnly, cs);
    LowGrantsMeaning(cs, bitrate);
    var g1 := EnforcedGrants(cs, bitrate);
    var g2 := AdmitIfAny(cs, false, g1);
    var g3 := AdmitIfAny(cs, true, g2);
    AdmitIfAnyMeaning(cs, false, g1);
    AdmitIfAnyMeaning(cs, true, g2);
    forall k | 0 <= k < |cs| ensures g1.alloc[cs[k].observer] == BaseRate(EnforcedOnly, cs[k]) {}
    assert forall k :: 0 <= k < |cs| && !Paused(cs[k]) ==> g3.alloc[cs[k].observer] == g2.alloc[cs[k].observer];
    assert forall k :: 0 <= k < |cs| && Paused(cs[k]) ==> g2.alloc[cs[k].observer] == g1.alloc[cs[k].observer];
    ChargesFrame(cs, false, g2.alloc, g3.alloc);
    ChargesFrame(cs[..i], false, g2.alloc, g3.alloc);
    PassCharges(cs, false, g1, i);
    PassCharges(cs, true, g2, i);
  }

  /** `AdmitPassRule` for a pass that may be skipped. */
  lemma PassCharges(cs: seq<Config>, paused: bool, g: Grants, i: nat)
    requires UniqueObservers(cs) && Covers(cs, g.alloc) && Undecided(cs, paused, g.alloc) && i < |cs|
    ensures var after := AdmitIfAny(cs, paused, g);
            && Covers(cs, after.alloc)
            && after.remaining == g.remaining - Charges(cs, paused, after.alloc)
            && after.alloc[cs[i].observer] ==
               if Eligible(cs[i], paused) && g.remaining > 0
                  && g.remaining - Charges(cs[..i], paused, after.alloc) >= Required(cs[i])
               then Required(cs[i]) else g.alloc[cs[i].observer]
  {
    if g.remaining > 0 {
      AdmitPassRule(cs, paused, g, i);
    } else {
      NoCharges(cs, paused, g.alloc);
    }
  }

  lemma {:induction false} NoCharges(cs: seq<Config>, paused: bool, alloc: Allocation)
    requires Covers(cs, alloc) && Undecided(cs, paused, alloc)
    ensures Charges(cs, paused, alloc) == 0
  {
    if cs != [] {
      NoCharges(cs[1..], paused, alloc);
    }
  }

  /** The charges of two records. */
  lemma PairCharges(cs: seq<Config>, paused: bool, alloc: Allocation)
    requires |cs| == 2 && Covers(cs, alloc)
    ensures Charges(cs[..0], paused, alloc) == 0
    ensures Charges(cs[..1], paused, alloc) == Charge(cs[0], paused, alloc)
    ensures Charges(cs, paused, alloc) == Charge(cs[0], paused, alloc) + Charge(cs[1], paused, alloc)
  {
    assert cs[..1] == [cs[0]] && [cs[0]][1..] == [] && cs[1..] == [cs[1]] && [cs[1]][1..] == [];
  }

  // ---------- below: where the bitrate goes ----------

  /** `rate` is what an even split of `remaining` over the observers with a grant makes of
      the grant of `c`, up to its maximum. */
  ghost predicate SharesRemainder(cs: seq<Config>, c: Config, g: Grants, rate: int)
    requires Covers(cs, g.alloc) && c.observer in g.alloc
  {
    var had, n := g.alloc[c.observer], |Order(cs, false, g.alloc)|;
    if g.remaining <= 0 || had == 0 then rate == had
    else n > 0 && Min(had + g.remaining / n, c.maxBitrate) <= rate <= c.maxBitrate
  }

  /** Every observer with a grant gains an even share of the remainder, up to its maximum. */
  lemma LowRateShares(cs: seq<Config>, bitrate: nat, i: nat)
    requires Sane(cs) && i < |cs|
    ensures Covers(cs, LowGrants(cs, bitrate).alloc) && Covers(cs, LowRate(cs, bitrate))
    ensures SharesRemainder(cs, cs[i], LowGrants(cs, bitrate), LowRate(cs, bitrate)[cs[i].observer])
  {
    LowRateCovers(cs, bitrate);
    var g := LowGrants(cs, bitrate);
    if g.remaining > 0 {
      DistributedShare(cs, g, i);
    }
  }

  lemma DistributedShare(cs: seq<Config>, g: Grants, i: nat)
    requires UniqueObservers(cs) && i < |cs| && Covers(cs, g.alloc) && g.remaining > 0
    ensures cs[i].observer in Distribute(cs, g.remaining, false, 1, g.alloc)
    ensures SharesRemainder(cs, cs[i], g, Distribute(cs, g.remaining, false, 1, g.alloc)[cs[i].observer])
  {
    DistributeAt(cs, g.remaining, false, 1, g.alloc, i);
  }

  lemma LowRateCovers(cs: seq<Config>, bitrate: nat)
    requires Sane(cs)
    ensures Covers(cs, LowGrants(cs, bitrate).alloc) && Covers(cs, LowRate(cs, bitrate))
  {
    LowGrantsMeaning(cs, bitrate);
    LowRateTotal(cs, bitrate);
  }

  /** What nobody could take. Negative when enforced minima exceed the bitrate. */
  function LowRateUnused(cs: seq<Config>, bitrate: nat): int
    requires Sane(cs)
  {
    LowGrantsMeaning(cs, bitrate);
    var g := LowGrants(cs, bitrate);
    if g.remaining > 0 then
      var hs := Headrooms(Order(cs, false, g.alloc), 1, g.alloc);
      Remaining(hs, g.remaining, |hs|)
    else g.remaining
  }

  /** The ledger of the low regime: allocated, unused and charged twice make the bitrate. */
  lemma LowRateLedger(cs: seq<Config>, bitrate: nat)
    requires Sane(cs)
    ensures Covers(cs, LowRate(cs, bitrate))
    ensures Total(cs, LowRate(cs, bitrate)) + LowRateUnused(cs, bitrate) + ChargedTwice(cs, bitrate) == bitrate
    ensures 0 <= LowRateUnused(cs, bitrate) <==> SumEnforcedMin(cs) <= bitrate
  {
    var g1, g := EnforcedGrants(cs, bitrate), LowGrants(cs, bitrate);
    LowGrantsMeaning(cs, bitrate);
    LowGrantsLedger(cs, bitrate);
    LowRateTotal(cs, bitrate);
    AdmitIfAnyMeaning(cs, false, g1);
    AdmitIfAnyMeaning(cs, true, AdmitIfAny(cs, false, g1));
    if g.remaining > 0 {
      DistributeTotal(cs, g.remaining, false, 1, g.alloc);
      Conservation(Headrooms(Order(cs, false, g.alloc), 1, g.alloc), g.remaining);
    }
  }

  /** An enforced stream and another one, both coming out of a network outage. */
  const RESUMING := [Config(1, 10000, 40000, 0, true, 0, 1.0), Config(2, 100000, 200000, 0, false, 0, 1.0)]

  /** The enforced stream is charged twice: of 45 kbps it gets 30 and 5 kbps, and its 10 kbps
      minimum is lost. */
  lemma LowRateChargesTwice()
    ensures Sane(RESUMING) && !Enough(RESUMING, 45000)
    ensures ChargedTwice(RESUMING, 45000) == 10000
    ensures 1 in Allocate(RESUMING, 45000) && Allocate(RESUMING, 45000)[1] == 35000
  {
    var cs, a := RESUMING, RESUMING[0];
    ResumingGrants();
    var g := LowGrants(cs, 45000);
    var order := Order(cs, false, g.alloc);
    assert cs[..1] == [a] && [a][..0] == [];
    assert Order([a], false, g.alloc) == [a];
    assert order == [a];
    LowRateShares(cs, 45000, 0);
    LowRateTotal(cs, 45000);
    assert LowRate(cs, 45000) == Spread([a], 5000, 1, g.alloc);
  }

  lemma ResumingGrants()
    ensures !Enough(RESUMING, 45000)
    ensures var g := LowGrants(RESUMING, 45000);
            g.remaining == 5000 && 1 in g.alloc && g.alloc[1] == 30000 && 2 in g.alloc && g.alloc[2] == 0
    ensures ChargedTwice(RESUMING, 45000) == 10000
  {
    var cs, a, b := RESUMING, RESUMING[0], RESUMING[1];
    assert cs[1..] == [b] && [b][1..] == [];
    assert SumRate(EnforcedOnly, [b]) == BaseRate(EnforcedOnly, b) == 0;
    assert SumRate(Minimum, [b]) == BaseRate(Minimum, b) == 100000;
    assert Required(a) == 30000 && Required(b) == 120000;
    BaseMapMeaning(EnforcedOnly, cs);
    var g := EnforcedGrants(cs, 45000);
    assert g.remaining == 35000;
    assert g.alloc[cs[0].observer] == 10000 && g.alloc[cs[1].observer] == 0;
    assert AdmitPass(cs, false, g) == g by {
      assert AdmitPass([b], false, g) == g;
    }
    var g3 := Admit(a, true, g);
    assert g3.remaining == 5000;
    assert AdmitPass(cs, true, g) == AdmitPass([b], true, g3) == g3;
    assert Overwritten(cs, true, g) == 10000 + Overwritten([b], true, g3);
    assert Overwritten([b], true, g3) == 0;
  }
}
