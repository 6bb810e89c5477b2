/** AllocateBitrates and its four regimes as functions of the records and the bitrate. */
module AllocationRules {
  import opened EvenShares
  import opened Observers
  import opened Distribution

  const TRANSMISSION_MAX_MULTIPLIER := 2

  /** Every observer, after an even split of what exceeds the minima, has what it requires. */
  predicate Enough(cs: seq<Config>, bitrate: nat)
    requires cs != []
  {
    && SumMin(cs) <= bitrate
    && var extra := (bitrate - SumMin(cs)) / |cs|;
       forall i :: 0 <= i < |cs| ==> cs[i].minBitrate + extra >= Required(cs[i])
  }

  /** The state of the low-rate passes: `remaining` may be negative. */
  datatype Grants = Grants(alloc: Allocation, remaining: int)

  /** The second pass serves active observers, the third paused ones. */
  predicate Eligible(c: Config, paused: bool) {
    if paused then Paused(c) else !c.enforceMin && !Paused(c)
  }

  predicate Admits(c: Config, paused: bool, g: Grants) {
    Eligible(c, paused) && g.remaining >= Required(c)
  }

  function Admit(c: Config, paused: bool, g: Grants): Grants {
    if Admits(c, paused, g)
    then Grants(g.alloc[c.observer := Required(c)], g.remaining - Required(c))
    else g
  }

  function AdmitPass(cs: seq<Config>, paused: bool, g: Grants): Grants {
    if cs == [] then g else AdmitPass(cs[1..], paused, Admit(cs[0], paused, g))
  }

  /** A pass only runs while something remains. */
  function AdmitIfAny(cs: seq<Config>, paused: bool, g: Grants): Grants {
    if g.remaining > 0 then AdmitPass(cs, paused, g) else g
  }

  function EnforcedGrants(cs: seq<Config>, bitrate: nat): Grants {
    Grants(BaseMap(EnforcedOnly, cs), bitrate - SumEnforcedMin(cs))
  }

  /** The first two passes. */
  function ActiveGrants(cs: seq<Config>, bitrate: nat): Grants {
    AdmitIfAny(cs, false, EnforcedGrants(cs, bitrate))
  }

  /** All three passes, before the remainder is split. */
  function LowGrants(cs: seq<Config>, bitrate: nat): Grants {
    AdmitIfAny(cs, true, ActiveGrants(cs, bitrate))
  }

  function LowRate(cs: seq<Config>, bitrate: nat): Allocation
    requires Sane(cs)
  {
    LowGrantsMeaning(cs, bitrate);
    var g := LowGrants(cs, bitrate);
    if g.remaining > 0 then Distribute(cs, g.remaining, false, 1, g.alloc) else g.alloc
  }

  function NormalRate(cs: seq<Config>, bitrate: nat): Allocation {
    var rest := bitrate - SumMin(cs);
    if rest > 0 then Distribute(cs, rest, true, 1, BaseMap(Minimum, cs)) else BaseMap(Minimum, cs)
  }

  function MaxRate(cs: seq<Config>, bitrate: nat): Allocation {
    Distribute(cs, bitrate - SumMax(cs), true, TRANSMISSION_MAX_MULTIPLIER, BaseMap(Maximum, cs))
  }

  function Allocate(cs: seq<Config>, bitrate: nat): Allocation
    requires Sane(cs)
  {
    if cs == [] then map[]
    else if bitrate == 0 then BaseMap(Nothing, cs)
    else if !Enough(cs, bitrate) then LowRate(cs, bitrate)
    else if bitrate <= SumMax(cs) then NormalRate(cs, bitrate)
    else MaxRate(cs, bitrate)
  }

  // ---------- the low-rate passes ----------

  /** What a pass did to one record it visited. */
  ghost predicate Visited(c: Config, paused: bool, before: Grants, after: Grants)
    requires c.observer in before.alloc && c.observer in after.alloc
  {
    || (after.alloc[c.observer] == Required(c) <= before.remaining && Eligible(c, paused))
    || (after.alloc[c.observer] == before.alloc[c.observer]
        && (Eligible(c, paused) ==> after.remaining < Required(c)))
  }

  lemma {:induction false} AdmitPassMeaning(cs: seq<Config>, paused: bool, g: Grants)
    requires UniqueObservers(cs) && Covers(cs, g.alloc)
    ensures var after := AdmitPass(cs, paused, g);
            && after.alloc.Keys == g.alloc.Keys
            && after.remaining <= g.remaining
            && (g.remaining >= 0 ==> after.remaining >= 0)
            && (forall id :: id in g.alloc && Outside(cs, id) ==> after.alloc[id] == g.alloc[id])
            && (forall k :: 0 <= k < |cs| ==> Visited(cs[k], paused, g, after))
  {
    if cs != [] {
      var c, rest, next := cs[0], cs[1..], Admit(cs[0], paused, g);
      AdmitPassMeaning(rest, paused, next);
      var after := AdmitPass(cs, paused, g);
      assert after == AdmitPass(rest, paused, next);
      assert Outside(rest, c.observer);
      forall k | 0 <= k < |cs| ensures Visited(cs[k], paused, g, after) {
        if k > 0 {
          assert Visited(rest[k - 1], paused, next, after);
        }
      }
    }
  }

  lemma AdmitIfAnyMeaning(cs: seq<Config>, paused: bool, g: Grants)
    requires UniqueObservers(cs) && Covers(cs, g.alloc)
    ensures var after := AdmitIfAny(cs, paused, g);
            && after.alloc.Keys == g.alloc.Keys
            && after.remaining <= g.remaining
            && (g.remaining >= 0 ==> after.remaining >= 0)
            && (forall k :: 0 <= k < |cs| ==>
                 || Visited(cs[k], paused, g, after)
                 || (after == g && g.remaining <= 0))
  {
    if g.remaining > 0 {
      AdmitPassMeaning(cs, paused, g);
    }
  }

  /** What one record has been granted when the passes are over. */
  ghost predicate Granted(c: Config, bitrate: nat, g: Grants)
    requires c.observer in g.alloc
  {
    var rate := g.alloc[c.observer];
    if c.enforceMin then rate == c.minBitrate || rate == Required(c)
    else rate == Required(c) <= bitrate || (rate == 0 && (Required(c) > 0 ==> g.remaining < Required(c)))
  }

  /** Greedy maximality: what is left is too little for any denied observer, enforced
      observers have at least their minimum, and an admitted one what it requires. */
  lemma LowGrantsMeaning(cs: seq<Config>, bitrate: nat)
    requires Sane(cs)
    ensures var g := LowGrants(cs, bitrate);
            && Covers(cs, g.alloc)
            && g.remaining <= bitrate
            && (forall k :: 0 <= k < |cs| ==> Granted(cs[k], bitrate, g))
  {
    BaseMapMeaning(EnforcedOnly, cs);
    var g1 := EnforcedGrants(cs, bitrate);
    var g2 := AdmitIfAny(cs, false, g1);
    var g3 := AdmitIfAny(cs, true, g2);
    AdmitIfAnyMeaning(cs, false, g1);
    AdmitIfAnyMeaning(cs, true, g2);
    forall k | 0 <= k < |cs| ensures Granted(cs[k], bitrate, g3) {
      assert g1.alloc[cs[k].observer] == BaseRate(EnforcedOnly, cs[k]);
    }
  }

  // ---------- the low-rate ledger ----------

  /** The rates overwritten by a pass: charged when first granted, and not given back. */
  function Overwritten(cs: seq<Config>, paused: bool, g: Grants): int
    requires Covers(cs, g.alloc)
  {
    if cs == [] then 0
    else
      (if Admits(cs[0], paused, g) then g.alloc[cs[0].observer] else 0)
      + Overwritten(cs[1..], paused, Admit(cs[0], paused, g))
  }

  /** Exact bookkeeping of a pass. */
  lemma {:induction false} AdmitPassLedger(all: seq<Config>, k: nat, paused: bool, g: Grants)
    requires UniqueObservers(all) && Covers(all, g.alloc) && k <= |all|
    ensures var after := AdmitPass(all[k..], paused, g);
            && Covers(all, after.alloc)
            && Total(all, after.alloc) + after.remaining + Overwritten(all[k..], paused, g)
               == Total(all, g.alloc) + g.remaining
    decreases |all| - k
  {
    if k < |all| {
      assert all[k..][1..] == all[k + 1..];
      TotalUpdate(all, g.alloc, k, Required(all[k]));
      AdmitPassLedger(all, k + 1, paused, Admit(all[k], paused, g));
    } else {
      assert all[k..] == [];
    }
  }

  /** When the pass reaches record `i`, the guard that admits it holds. */
  predicate AdmittedAt(cs: seq<Config>, i: nat, paused: bool, g: Grants)
    requires i < |cs|
  {
    Admits(cs[i], paused, AdmitPass(cs[..i], paused, g))
  }

  lemma AdmittedAtTail(cs: seq<Config>, i: nat, paused: bool, g: Grants)
    requires 0 < i < |cs|
    ensures AdmittedAt(cs, i, paused, g) == AdmittedAt(cs[1..], i - 1, paused, Admit(cs[0], paused, g))
  {
    assert cs[..i][1..] == cs[1..][..i - 1];
  }

  /** A pass overwrites something exactly when its guard admits a record that had a grant. */
  lemma {:induction false} OverwrittenIff(cs: seq<Config>, paused: bool, g: Grants)
    requires UniqueObservers(cs) && Covers(cs, g.alloc)
    requires forall i :: 0 <= i < |cs| && Eligible(cs[i], paused) ==> 0 <= g.alloc[cs[i].observer]
    ensures Overwritten(cs, paused, g) >= 0
    ensures Overwritten(cs, paused, g) > 0 <==>
            exists i :: 0 <= i < |cs| && g.alloc[cs[i].observer] > 0 && AdmittedAt(cs, i, paused, g)
  {
    if cs != [] {
      var rest, next := cs[1..], Admit(cs[0], paused, g);
      assert forall i :: 0 <= i < |rest| ==>
               rest[i] == cs[i + 1] && next.alloc[rest[i].observer] == g.alloc[cs[i + 1].observer];
      OverwrittenIff(rest, paused, next);
      assert AdmittedAt(cs, 0, paused, g) == Admits(cs[0], paused, g);
      forall i | 0 < i < |cs| ensures AdmittedAt(cs, i, paused, g) == AdmittedAt(rest, i - 1, paused, next) {
        AdmittedAtTail(cs, i, paused, g);
      }
      if i :| 0 <= i < |rest| && next.alloc[rest[i].observer] > 0 && AdmittedAt(rest, i, paused, next) {
        assert AdmittedAt(cs, i + 1, paused, g) && g.alloc[cs[i + 1].observer] > 0;
      }
    }
  }

  /** The bitrate that the third pass charges twice. */
  function ChargedTwice(cs: seq<Config>, bitrate: nat): int
    requires Sane(cs)
  {
    AdmitIfAnyMeaning(cs, false, EnforcedGrants(cs, bitrate));
    var g := ActiveGrants(cs, bitrate);
    if g.remaining > 0 then Overwritten(cs, true, g) else 0
  }

  /** The grants, the remainder and what is charged twice add up to the bitrate. Something
      is charged twice exactly when the third pass, on reaching an enforced observer with a
      minimum, finds it paused and enough left for its requirement. */
  lemma LowGrantsLedger(cs: seq<Config>, bitrate: nat)
    requires Sane(cs)
    ensures var g := LowGrants(cs, bitrate);
            && Covers(cs, g.alloc)
            && Total(cs, g.alloc) + g.remaining + ChargedTwice(cs, bitrate) == bitrate
            && ChargedTwice(cs, bitrate) >= 0
    ensures var g := ActiveGrants(cs, bitrate);
            ChargedTwice(cs, bitrate) > 0 <==>
            && g.remaining > 0
            && exists i :: 0 <= i < |cs| && cs[i].enforceMin && cs[i].minBitrate > 0 && AdmittedAt(cs, i, true, g)
  {
    BaseMapMeaning(EnforcedOnly, cs);
    var g1, g2 := EnforcedGrants(cs, bitrate), ActiveGrants(cs, bitrate);
    AdmitIfAnyMeaning(cs, false, g1);
    assert cs[0..] == cs;
    if g1.remaining > 0 {
      AdmitPassLedger(cs, 0, false, g1);
      NothingOverwritten(cs, false, g1);
    }
    forall i | 0 <= i < |cs| && Paused(cs[i])
      ensures g2.alloc[cs[i].observer] == BaseRate(EnforcedOnly, cs[i])
    {
      assert g1.alloc[cs[i].observer] == BaseRate(EnforcedOnly, cs[i]);
    }
    if g2.remaining > 0 {
      AdmitPassLedger(cs, 0, true, g2);
      OverwrittenIff(cs, true, g2);
      forall i | 0 <= i < |cs| && AdmittedAt(cs, i, true, g2)
        ensures g2.alloc[cs[i].observer] > 0 <==> cs[i].enforceMin && cs[i].minBitrate > 0
      {
        assert Paused(cs[i]);
      }
    }
  }

  lemma {:induction false} NothingOverwritten(cs: seq<Config>, paused: bool, g: Grants)
    requires UniqueObservers(cs) && Covers(cs, g.alloc)
    requires forall i :: 0 <= i < |cs| && Eligible(cs[i], paused) ==> g.alloc[cs[i].observer] == 0
    ensures Overwritten(cs, paused, g) == 0
  {
    if cs != [] {
      var next := Admit(cs[0], paused, g);
      assert forall i :: 0 < i < |cs| ==> next.alloc[cs[i].observer] == g.alloc[cs[i].observer];
      NothingOverwritten(cs[1..], paused, next);
    }
  }

  // ---------- one observer, regime by regime ----------

  lemma LowRateAt(cs: seq<Config>, bitrate: nat, i: nat)
    requires Sane(cs) && i < |cs|
    ensures var c, alloc := cs[i], LowRate(cs, bitrate);
            && c.observer in alloc
            && (c.enforceMin ==> alloc[c.observer] >= Min(c.minBitrate, c.maxBitrate))
            && (!c.enforceMin ==>
                 || alloc[c.observer] == 0
                 || alloc[c.observer] >= Min(c.maxBitrate, Required(c)))
            && (!c.enforceMin && bitrate < Required(c) ==> alloc[c.observer] == 0)
  {
    LowGrantsMeaning(cs, bitrate);
    var g := LowGrants(cs, bitrate);
    assert Granted(cs[i], bitrate, g);
    if g.remaining > 0 {
      DistributeAt(cs, g.remaining, false, 1, g.alloc, i);
      if g.alloc[cs[i].observer] != 0 {
        QuotientMonotone(0, g.remaining, |Order(cs, false, g.alloc)|);
      }
    }
  }

  lemma NormalRateAt(cs: seq<Config>, bitrate: nat, i: nat)
    requires Sane(cs) && i < |cs| && SumMin(cs) <= bitrate
    ensures var c, alloc := cs[i], NormalRate(cs, bitrate);
            && c.observer in alloc
            && Min(c.minBitrate + (bitrate - SumMin(cs)) / |cs|, c.maxBitrate) <= alloc[c.observer]
            && alloc[c.observer] <= Max(c.minBitrate, c.maxBitrate)
  {
    var rest := bitrate - SumMin(cs);
    BaseMapMeaning(Minimum, cs);
    ShareBounds(rest, |cs|);
    if rest > 0 {
      OrderMembers(cs, true, BaseMap(Minimum, cs));
      DistributeAt(cs, rest, true, 1, BaseMap(Minimum, cs), i);
    }
  }

  lemma MaxRateAt(cs: seq<Config>, bitrate: nat, i: nat)
    requires Sane(cs) && i < |cs| && SumMax(cs) <= bitrate
    ensures var c, alloc := cs[i], MaxRate(cs, bitrate);
            && c.observer in alloc
            && c.maxBitrate <= alloc[c.observer] <= 2 * c.maxBitrate
  {
    BaseMapMeaning(Maximum, cs);
    OrderMembers(cs, true, BaseMap(Maximum, cs));
    QuotientMonotone(0, bitrate - SumMax(cs), |cs|);
    DistributeAt(cs, bitrate - SumMax(cs), true, 2, BaseMap(Maximum, cs), i);
  }

  /** A bitrate below what one observer requires is not enough for all. */
  lemma TooLittleForOne(cs: seq<Config>, bitrate: nat, i: nat)
    requires i < |cs| && bitrate < Required(cs[i])
    ensures !Enough(cs, bitrate)
  {
    RateBelowSum(Minimum, cs, i);
    if SumMin(cs) <= bitrate {
      ShareBounds(bitrate - SumMin(cs), |cs|);
    }
  }

  /** The threshold of "enough", without division: the minima plus, for every observer, the
      largest gap between required rate and minimum. */
  lemma EnoughIff(cs: seq<Config>, bitrate: nat)
    requires cs != []
    ensures Enough(cs, bitrate) <==>
            && SumMin(cs) <= bitrate
            && forall i :: 0 <= i < |cs| ==> |cs| * (Required(cs[i]) - cs[i].minBitrate) <= bitrate - SumMin(cs)
  {
    if SumMin(cs) <= bitrate {
      var rest := bitrate - SumMin(cs);
      QuotientBounds(rest, |cs|);
      forall i | 0 <= i < |cs|
        ensures |cs| * (Required(cs[i]) - cs[i].minBitrate) <= rest
                <==> Required(cs[i]) - cs[i].minBitrate <= rest / |cs|
      {
        var gap := Required(cs[i]) - cs[i].minBitrate;
        ProductOrder(|cs|, gap, rest / |cs|);
        if |cs| * gap <= rest {
          QuotientAtLeast(rest, |cs|, gap);
        }
      }
    }
  }

  lemma EnoughMonotone(cs: seq<Config>, low: nat, high: nat)
    requires cs != [] && Enough(cs, low) && low <= high
    ensures Enough(cs, high)
  {
    QuotientMonotone(low - SumMin(cs), high - SumMin(cs), |cs|);
  }

  /** The zero regime. */
  lemma ZeroRateAt(cs: seq<Config>, i: nat)
    requires Sane(cs) && i < |cs|
    ensures cs[i].observer in Allocate(cs, 0) && Allocate(cs, 0)[cs[i].observer] == 0
  {
    BaseMapMeaning(Nothing, cs);
  }

  // ---------- what every allocation guarantees ----------

  /** Every observer gets an entry and no rate is negative. */
  lemma AllocateCovers(cs: seq<Config>, bitrate: nat)
    requires Sane(cs)
    ensures Covers(cs, Allocate(cs, bitrate))
    ensures forall i :: 0 <= i < |cs| ==> Allocate(cs, bitrate)[cs[i].observer] >= 0
  {
    forall i | 0 <= i < |cs|
      ensures cs[i].observer in Allocate(cs, bitrate) && Allocate(cs, bitrate)[cs[i].observer] >= 0
    {
      AllocateAt(cs, bitrate, i);
    }
  }

  /** Nobody else gets an entry. */
  lemma AllocateOnlyObservers(cs: seq<Config>, bitrate: nat, id: ObserverId)
    requires Sane(cs) && id in Allocate(cs, bitrate)
    ensures exists i :: 0 <= i < |cs| && cs[i].observer == id
  {
    BaseMapKeys(Nothing, cs);
    BaseMapKeys(EnforcedOnly, cs);
    BaseMapKeys(Minimum, cs);
    BaseMapKeys(Maximum, cs);
    if cs == [] || bitrate == 0 {
    } else if !Enough(cs, bitrate) {
      LowGrantsMeaning(cs, bitrate);
      var g1 := EnforcedGrants(cs, bitrate);
      AdmitIfAnyMeaning(cs, false, g1);
      AdmitIfAnyMeaning(cs, true, AdmitIfAny(cs, false, g1));
      DistributeTotal(cs, LowGrants(cs, bitrate).remaining, false, 1, LowGrants(cs, bitrate).alloc);
    } else {
      DistributeTotal(cs, bitrate - SumMin(cs), true, 1, BaseMap(Minimum, cs));
      DistributeTotal(cs, bitrate - SumMax(cs), true, 2, BaseMap(Maximum, cs));
    }
  }

  lemma {:induction false} BaseMapKeys(base: Baseline, cs: seq<Config>)
    ensures forall id :: id in BaseMap(base, cs) ==> exists i :: 0 <= i < |cs| && cs[i].observer == id
  {
    if cs != [] {
      var init := cs[..|cs| - 1];
      BaseMapKeys(base, init);
      forall id | id in BaseMap(base, cs) ensures exists i :: 0 <= i < |cs| && cs[i].observer == id {
        if id in BaseMap(base, init) {
          var i :| 0 <= i < |init| && init[i].observer == id;
          assert cs[i].observer == id;
        } else {
          assert cs[|cs| - 1].observer == id;
        }
      }
    }
  }

  /** Minimum and resume guarantees: an enforced observer always gets its minimum, any
      other gets nothing or what it requires; in both cases its maximum, if that is less. */
  lemma AllocateAt(cs: seq<Config>, bitrate: nat, i: nat)
    requires Sane(cs) && i < |cs|
    ensures cs[i].observer in Allocate(cs, bitrate)
    ensures var c, rate := cs[i], Allocate(cs, bitrate)[cs[i].observer];
            && (bitrate == 0 ==> rate == 0)
            && (bitrate > 0 && c.enforceMin ==> rate >= Min(c.minBitrate, c.maxBitrate))
            && (!c.enforceMin ==> rate == 0 || rate >= Min(c.maxBitrate, Required(c)))
            && rate >= 0
  {
    if bitrate == 0 {
      ZeroRateAt(cs, i);
    } else if !Enough(cs, bitrate) {
      LowRateAt(cs, bitrate, i);
    } else if bitrate <= SumMax(cs) {
      NormalRateAt(cs, bitrate, i);
      QuotientMonotone(0, bitrate - SumMin(cs), |cs|);
    } else {
      MaxRateAt(cs, bitrate, i);
    }
  }

  /** What the documentation promises the observer of `c` at this bitrate. */
  ghost predicate MinimumKept(c: Config, bitrate: nat, rate: int) {
    if c.enforceMin then bitrate > 0 ==> rate >= c.minBitrate else rate == 0 || rate >= c.minBitrate
  }

  /** The documented minimum contract, for limits that are in order, and for a maximum of 0
      without an enforced minimum. */
  lemma MinimumContract(cs: seq<Config>, bitrate: nat, i: nat)
    requires Sane(cs) && i < |cs| && KeepsMinimum(cs[i])
    ensures cs[i].observer in Allocate(cs, bitrate)
    ensures MinimumKept(cs[i], bitrate, Allocate(cs, bitrate)[cs[i].observer])
  {
    AllocateAt(cs, bitrate, i);
    if !Ordered(cs[i]) {
      ZeroMaximumKeepsMinimum(cs, bitrate, i);
    }
  }

  /** Limits for which the contract holds, as a caller can check before registering. */
  predicate KeepsMinimum(c: Config) {
    Ordered(c) || (!c.enforceMin && c.maxBitrate == 0)
  }

  lemma ZeroMaximumKeepsMinimum(cs: seq<Config>, bitrate: nat, i: nat)
    requires Sane(cs) && i < |cs| && !cs[i].enforceMin && cs[i].maxBitrate == 0
    ensures cs[i].observer in Allocate(cs, bitrate)
    ensures MinimumKept(cs[i], bitrate, Allocate(cs, bitrate)[cs[i].observer])
  {
    AllocateAt(cs, bitrate, i);
    if bitrate == 0 {
      ZeroRateAt(cs, i);
    } else if !Enough(cs, bitrate) {
      LowGrantsMeaning(cs, bitrate);
      var g := LowGrants(cs, bitrate);
      assert Granted(cs[i], bitrate, g);
      if g.remaining > 0 {
        DistributeAt(cs, g.remaining, false, 1, g.alloc, i);
      }
    } else if bitrate <= SumMax(cs) {
      BaseMapMeaning(Minimum, cs);
      if bitrate > SumMin(cs) {
        DistributeAt(cs, bitrate - SumMin(cs), true, 1, BaseMap(Minimum, cs), i);
      }
    } else {
      MaxRateAt(cs, bitrate, i);
    }
  }

  /** The contract holds for a record whatever its company and whatever the bitrate. */
  ghost predicate AlwaysKeepsMinimum(c: Config) {
    forall cs: seq<Config>, bitrate: nat :: Sane(cs) && c in cs ==>
      c.observer in Allocate(cs, bitrate) && MinimumKept(c, bitrate, Allocate(cs, bitrate)[c.observer])
  }

  /** The bitrate and the company in which limits out of order cost `c` its minimum. */
  function TellingBitrate(c: Config): nat { 2 * Required(c) + 2 }

  function TellingCompany(c: Config): seq<Config> {
    [c, Config(c.observer + 1, 0, TellingBitrate(c), 0, false, 1, 1.0)]
  }

  lemma TellingSums(c: Config)
    ensures var cs, bitrate := TellingCompany(c), TellingBitrate(c);
            && SumMin(cs) == c.minBitrate && SumMax(cs) == c.maxBitrate + bitrate
            && c.minBitrate < bitrate
            && Enough(cs, bitrate)
  {
    var cs, d := TellingCompany(c), TellingCompany(c)[1];
    assert cs[1..] == [d] && [d][1..] == [];
    assert SumRate(Minimum, [d]) == BaseRate(Minimum, d);
    assert SumRate(Maximum, [d]) == BaseRate(Maximum, d);
    assert Required(d) == 0;
  }

  /** In that company the record gets exactly its maximum. */
  lemma CappedBelowMinimum(c: Config)
    requires WellFormed(c) && !Ordered(c)
    ensures var cs, bitrate := TellingCompany(c), TellingBitrate(c);
            && Sane(cs) && c.observer in Allocate(cs, bitrate)
            && Allocate(cs, bitrate)[c.observer] == c.maxBitrate
  {
    var cs, bitrate := TellingCompany(c), TellingBitrate(c);
    TellingSums(c);
    BaseMapMeaning(Minimum, cs);
    OrderMembers(cs, true, BaseMap(Minimum, cs));
    ShareBounds(bitrate - SumMin(cs), |cs|);
    assert cs[0] == c;
    DistributeAt(cs, bitrate - SumMin(cs), true, 1, BaseMap(Minimum, cs), 0);
  }

  /** The exact condition for the documented minimum contract. */
  lemma MinimumContractIff(c: Config)
    requires WellFormed(c)
    ensures AlwaysKeepsMinimum(c) <==> KeepsMinimum(c)
  {
    if KeepsMinimum(c) {
      forall cs: seq<Config>, bitrate: nat | Sane(cs) && c in cs
        ensures c.observer in Allocate(cs, bitrate) && MinimumKept(c, bitrate, Allocate(cs, bitrate)[c.observer])
      {
        var i :| 0 <= i < |cs| && cs[i] == c;
        MinimumContract(cs, bitrate, i);
      }
    } else {
      CappedBelowMinimum(c);
      var cs := TellingCompany(c);
      assert c == cs[0] && c in cs;
      assert !MinimumKept(c, TellingBitrate(c), Allocate(cs, TellingBitrate(c))[c.observer]);
    }
  }

  /** When there is enough for all, everybody gets what it requires, or its maximum. */
  lemma EnoughServesAll(cs: seq<Config>, bitrate: nat, i: nat)
    requires Sane(cs) && i < |cs| && Enough(cs, bitrate) && bitrate > 0
    ensures cs[i].observer in Allocate(cs, bitrate)
    ensures var c, rate := cs[i], Allocate(cs, bitrate)[cs[i].observer];
            && Min(c.maxBitrate, Required(c)) <= rate
            && rate <= if bitrate <= SumMax(cs) then Max(c.minBitrate, c.maxBitrate) else 2 * c.maxBitrate
  {
    if bitrate <= SumMax(cs) {
      NormalRateAt(cs, bitrate, i);
    } else {
      MaxRateAt(cs, bitrate, i);
    }
  }

  /** An observer without an enforced minimum gets nothing below its required rate. */
  lemma DeniedBelowRequired(cs: seq<Config>, bitrate: nat, i: nat)
    requires Sane(cs) && i < |cs| && !cs[i].enforceMin && bitrate < Required(cs[i])
    ensures cs[i].observer in Allocate(cs, bitrate)
    ensures Allocate(cs, bitrate)[cs[i].observer] == 0
  {
    if bitrate == 0 {
      ZeroRateAt(cs, i);
    } else {
      TooLittleForOne(cs, bitrate, i);
      LowRateAt(cs, bitrate, i);
    }
  }

  /** Budget: only enforced minima can make the total exceed the bitrate. */
  lemma AllocateBudget(cs: seq<Config>, bitrate: nat)
    requires Sane(cs)
    ensures Covers(cs, Allocate(cs, bitrate))
    ensures bitrate > 0 ==> Total(cs, Allocate(cs, bitrate)) <= Max(bitrate, SumEnforcedMin(cs))
    ensures bitrate == 0 ==> Total(cs, Allocate(cs, bitrate)) == 0
  {
    AllocateCovers(cs, bitrate);
    if cs == [] {
    } else if bitrate == 0 {
      BaseMapMeaning(Nothing, cs);
      NothingTotal(cs);
    } else if !Enough(cs, bitrate) {
      LowRateTotal(cs, bitrate);
    } else if bitrate <= SumMax(cs) {
      BaseMapMeaning(Minimum, cs);
      DistributeTotal(cs, bitrate - SumMin(cs), true, 1, BaseMap(Minimum, cs));
    } else {
      BaseMapMeaning(Maximum, cs);
      DistributeTotal(cs, bitrate - SumMax(cs), true, 2, BaseMap(Maximum, cs));
    }
  }

  lemma {:induction false} NothingTotal(cs: seq<Config>)
    ensures SumRate(Nothing, cs) == 0
  {
    if cs != [] {
      NothingTotal(cs[1..]);
    }
  }

  lemma LowRateTotal(cs: seq<Config>, bitrate: nat)
    requires Sane(cs)
    ensures Covers(cs, LowRate(cs, bitrate))
    ensures Total(cs, LowRate(cs, bitrate)) <= Max(bitrate, SumEnforcedMin(cs))
  {
    var g1 := EnforcedGrants(cs, bitrate);
    var g := LowGrants(cs, bitrate);
    LowGrantsMeaning(cs, bitrate);
    LowGrantsLedger(cs, bitrate);
    if g.remaining > 0 {
      DistributeTotal(cs, g.remaining, false, 1, g.alloc);
    } else if g1.remaining > 0 {
      AdmitIfAnyMeaning(cs, false, g1);
      AdmitIfAnyMeaning(cs, true, AdmitIfAny(cs, false, g1));
    }
  }

  /** Above the minima the even split keeps everyone to its maximum. */
  lemma NormalRateCapped(cs: seq<Config>, bitrate: nat, i: nat)
    requires Sane(cs) && i < |cs| && SumMin(cs) < bitrate
    ensures cs[i].observer in NormalRate(cs, bitrate)
    ensures NormalRate(cs, bitrate)[cs[i].observer] <= cs[i].maxBitrate
  {
    BaseMapMeaning(Minimum, cs);
    DistributeAt(cs, bitrate - SumMin(cs), true, 1, BaseMap(Minimum, cs), i);
  }

  /** Limits for which more bitrate is never worse once there is enough for all. */
  predicate NeverCapped(c: Config) { Ordered(c) || Required(c) > c.minBitrate }

  /** Otherwise more than the minima is needed to have enough for all. */
  lemma EnoughExceedsMinima(cs: seq<Config>, bitrate: nat, i: nat)
    requires i < |cs| && Enough(cs, bitrate) && Required(cs[i]) > cs[i].minBitrate
    ensures SumMin(cs) < bitrate
  {
  }

  /** More bitrate is never worse once there is enough for all. */
  lemma AllocateMonotone(cs: seq<Config>, low: nat, high: nat, i: nat)
    requires Sane(cs) && i < |cs| && NeverCapped(cs[i]) && Enough(cs, low) && low <= high
    ensures Enough(cs, high)
    ensures cs[i].observer in Allocate(cs, low) && cs[i].observer in Allocate(cs, high)
    ensures Allocate(cs, low)[cs[i].observer] <= Allocate(cs, high)[cs[i].observer]
  {
    EnoughMonotone(cs, low, high);
    AllocateAt(cs, low, i);
    AllocateAt(cs, high, i);
    if !Ordered(cs[i]) {
      EnoughExceedsMinima(cs, low, i);
      NormalRateCapped(cs, low, i);
    }
    if 0 < low <= SumMax(cs) {
      NormalRateAt(cs, low, i);
      if high <= SumMax(cs) {
        NormalMonotone(cs, low, high, i);
      } else {
        MaxRateAt(cs, high, i);
      }
    } else if 0 < low {
      DistributeMonotone(cs, low - SumMax(cs), high - SumMax(cs), true, 2, BaseMap(Maximum, cs), i);
    }
  }

  /** Once there is enough for all, more bitrate never costs `c` rate, whatever its company. */
  ghost predicate NeverLosesOnceEnough(c: Config) {
    forall cs: seq<Config>, low: nat, high: nat :: Sane(cs) && c in cs && low <= high && Enough(cs, low) ==>
      && c.observer in Allocate(cs, low) && c.observer in Allocate(cs, high)
      && Allocate(cs, low)[c.observer] <= Allocate(cs, high)[c.observer]
  }

  /** That holds exactly unless the limits are out of order and the observer, which is active
      and allowed no protection, can be served with its minimum alone. */
  lemma NeverLosesOnceEnoughIff(c: Config)
    requires WellFormed(c)
    ensures NeverLosesOnceEnough(c) <==> NeverCapped(c)
  {
    if NeverCapped(c) {
      forall cs: seq<Config>, low: nat, high: nat | Sane(cs) && c in cs && low <= high && Enough(cs, low)
        ensures c.observer in Allocate(cs, low) && c.observer in Allocate(cs, high)
        ensures Allocate(cs, low)[c.observer] <= Allocate(cs, high)[c.observer]
      {
        var i :| 0 <= i < |cs| && cs[i] == c;
        AllocateMonotone(cs, low, high, i);
      }
    } else {
      var cs := TellingCompany(c);
      TellingSums(c);
      CappedBelowMinimum(c);
      TellingMinima(c);
      assert c == cs[0] && c in cs;
      assert Allocate(cs, c.minBitrate)[c.observer] > Allocate(cs, TellingBitrate(c))[c.observer];
    }
  }

  /** With exactly the minima `c` gets its minimum. */
  lemma TellingMinima(c: Config)
    requires WellFormed(c) && !NeverCapped(c)
    ensures var cs := TellingCompany(c);
            && Sane(cs) && Enough(cs, c.minBitrate)
            && c.observer in Allocate(cs, c.minBitrate) && Allocate(cs, c.minBitrate)[c.observer] == c.minBitrate
  {
    var cs := TellingCompany(c);
    TellingSums(c);
    BaseMapMeaning(Minimum, cs);
    assert cs[0] == c;
    assert Required(cs[1]) == 0;
  }

  lemma NormalMonotone(cs: seq<Config>, low: nat, high: nat, i: nat)
    requires Sane(cs) && i < |cs| && SumMin(cs) <= low <= high && (Ordered(cs[i]) || SumMin(cs) < low)
    ensures cs[i].observer in NormalRate(cs, low) && cs[i].observer in NormalRate(cs, high)
    ensures NormalRate(cs, low)[cs[i].observer] <= NormalRate(cs, high)[cs[i].observer]
  {
    NormalRateAt(cs, low, i);
    NormalRateAt(cs, high, i);
    BaseMapMeaning(Minimum, cs);
    if SumMin(cs) < low {
      DistributeMonotone(cs, low - SumMin(cs), high - SumMin(cs), true, 1, BaseMap(Minimum, cs), i);
    } else {
      QuotientMonotone(0, high - SumMin(cs), |cs|);
    }
  }
}
