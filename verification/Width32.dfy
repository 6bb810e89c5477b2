/** The allocation rules in the source's 32-bit unsigned arithmetic, and the bound on the
    limits under which they agree with the unbounded rules.
 */
module Width32 {
  import opened EvenShares
  import opened Observers
  import opened Distribution
  import opened AllocationRules

  const WIDTH := 0x1_0000_0000

  /** Conversion to `uint32_t`. */
  function U32(x: int): int { if 0 <= x < WIDTH then x else x % WIDTH }

  /** Conversion to `int32_t`. */
  function S32(x: int): int { if U32(x) < WIDTH / 2 then U32(x) else U32(x) - WIDTH }

  /** Both conversions keep the value modulo 2^32 and yield what the type can hold. */
  lemma ConversionsWrap(x: int)
    ensures 0 <= U32(x) < 0x1_0000_0000 && (U32(x) - x) % 0x1_0000_0000 == 0
    ensures -0x8000_0000 <= S32(x) < 0x8000_0000 && (S32(x) - x) % 0x1_0000_0000 == 0
  {
    assert x == WIDTH * (x / WIDTH) + x % WIDTH;
    if U32(x) == x {
      MultipleOfWidth(0);
      MultipleOfWidth(-1);
    } else {
      MultipleOfWidth(-(x / WIDTH));
      MultipleOfWidth(-(x / WIDTH) - 1);
    }
  }

  lemma MultipleOfWidth(k: int)
    ensures (WIDTH * k) % WIDTH == 0
  {
  }

  function Required32(c: Config): int {
    var m := U32(c.minBitrate + if Paused(c) then Max(c.minBitrate / TOGGLE_DIVISOR, MIN_TOGGLE_BITRATE_BPS) else 0);
    if 0.0 < c.mediaRatio < 1.0 then U32(m + Scaled(m, 1.0 - c.mediaRatio)) else m
  }

  function SumRate32(base: Baseline, cs: seq<Config>): int {
    if cs == [] then 0
    else U32(SumRate32(base, cs[..|cs| - 1]) + BaseRate(base, cs[|cs| - 1]))
  }

  predicate Served32(c: Config, extra: int) { U32(c.minBitrate + extra) >= Required32(c) }

  predicate Enough32(cs: seq<Config>, bitrate: nat)
    requires cs != []
  {
    && SumRate32(Minimum, cs) <= bitrate
    && var extra := U32(bitrate - SumRate32(Minimum, cs)) / |cs|;
       forall i :: 0 <= i < |cs| ==> Served32(cs[i], extra)
  }

  function Visit32(bitrate: int, n: nat, had: int, cap: int): (int, int)
    requires n > 0
  {
    var extra := bitrate / n;
    var total, left := U32(extra + had), U32(bitrate - extra);
    if total > cap then (cap, U32(left + U32(total - cap))) else (total, left)
  }

  function Spread32(order: seq<Config>, bitrate: int, multiplier: nat, alloc: Allocation): Allocation
    requires Covers(order, alloc)
    decreases |order|
  {
    if order == [] then alloc
    else
      var c := order[0];
      var (rate, left) := Visit32(bitrate, |order|, alloc[c.observer], U32(multiplier * c.maxBitrate));
      Spread32(order[1..], left, multiplier, alloc[c.observer := rate])
  }

  function Distribute32(
    cs: seq<Config>, bitrate: int, includeZero: bool, multiplier: nat, alloc: Allocation): Allocation
    requires Covers(cs, alloc)
  {
    Spread32(Order(cs, includeZero, alloc), bitrate, multiplier, alloc)
  }

  /** The remaining rate is 64 bits wide, but each enforced minimum passes through 32
      signed bits on its way out of it. */
  function EnforcedRemaining32(cs: seq<Config>, remaining: int): int {
    if cs == [] then remaining
    else EnforcedRemaining32(cs[1..], remaining - S32(BaseRate(EnforcedOnly, cs[0])))
  }

  function AdmitPass32(cs: seq<Config>, paused: bool, g: Grants): (after: Grants)
    ensures g.alloc.Keys <= after.alloc.Keys
  {
    if cs == [] then g
    else if Eligible(cs[0], paused) && g.remaining >= Required32(cs[0]) then
      AdmitPass32(cs[1..], paused,
                  Grants(g.alloc[cs[0].observer := Required32(cs[0])], g.remaining - Required32(cs[0])))
    else AdmitPass32(cs[1..], paused, g)
  }

  function LowRate32(cs: seq<Config>, bitrate: nat): Allocation {
    var g1 := Grants(BaseMap(EnforcedOnly, cs), EnforcedRemaining32(cs, bitrate));
    var g2 := if g1.remaining > 0 then AdmitPass32(cs, false, g1) else g1;
    var g3 := if g2.remaining > 0 then AdmitPass32(cs, true, g2) else g2;
    if g3.remaining > 0 then Distribute32(cs, U32(g3.remaining), false, 1, g3.alloc) else g3.alloc
  }

  function NormalRate32(cs: seq<Config>, bitrate: nat): Allocation {
    var rest := U32(bitrate - SumRate32(Minimum, cs));
    if rest > 0 then Distribute32(cs, rest, true, 1, BaseMap(Minimum, cs)) else BaseMap(Minimum, cs)
  }

  function MaxRest32(cs: seq<Config>, bitrate: int): int {
    if cs == [] then bitrate else MaxRest32(cs[1..], U32(bitrate - cs[0].maxBitrate))
  }

  function MaxRate32(cs: seq<Config>, bitrate: nat): Allocation {
    Distribute32(cs, MaxRest32(cs, bitrate), true, TRANSMISSION_MAX_MULTIPLIER, BaseMap(Maximum, cs))
  }

  function Allocate32(cs: seq<Config>, bitrate: nat): Allocation {
    if cs == [] then map[]
    else if bitrate == 0 then BaseMap(Nothing, cs)
    else if !Enough32(cs, bitrate) then LowRate32(cs, bitrate)
    else if bitrate <= SumRate32(Maximum, cs) then NormalRate32(cs, bitrate)
    else MaxRate32(cs, bitrate)
  }

  /** Limits for which no intermediate value wraps around. */
  ghost predicate Fits(cs: seq<Config>, bitrate: nat) {
    && bitrate < WIDTH
    && SumMin(cs) < WIDTH && SumMax(cs) < WIDTH
    && forall i :: 0 <= i < |cs| ==> 2 * cs[i].maxBitrate < WIDTH && 2 * ToggledMin(cs[i]) < WIDTH
  }

  lemma Required32Agrees(c: Config)
    requires WellFormed(c) && 2 * ToggledMin(c) < WIDTH
    ensures Required32(c) == Required(c)
  {
    var m := ToggledMin(c);
    assert U32(m) == m;
  }

  lemma {:induction false} SumRate32Agrees(base: Baseline, cs: seq<Config>)
    requires SumRate(base, cs) < WIDTH
    ensures SumRate32(base, cs) == SumRate(base, cs)
  {
    if cs != [] {
      var init, c := cs[..|cs| - 1], cs[|cs| - 1];
      SumRateAppend(base, init, c);
      assert cs == init + [c];
      SumRate32Agrees(base, init);
    }
  }

  lemma Served32Agrees(cs: seq<Config>, bitrate: nat, extra: nat, i: nat)
    requires Sane(cs) && Fits(cs, bitrate) && i < |cs| && SumMin(cs) + extra <= bitrate
    ensures Served32(cs[i], extra) <==> cs[i].minBitrate + extra >= Required(cs[i])
  {
    Required32Agrees(cs[i]);
    RateBelowSum(Minimum, cs, i);
  }

  lemma Enough32Agrees(cs: seq<Config>, bitrate: nat)
    requires Sane(cs) && Fits(cs, bitrate) && cs != []
    ensures Enough32(cs, bitrate) == Enough(cs, bitrate)
  {
    SumRate32Agrees(Minimum, cs);
    if SumMin(cs) <= bitrate {
      var rest: nat := bitrate - SumMin(cs);
      assert U32(rest) == rest;
      ShareBounds(rest, |cs|);
      var extra: nat := rest / |cs|;
      forall i | 0 <= i < |cs|
        ensures Served32(cs[i], extra) <==> cs[i].minBitrate + extra >= Required(cs[i])
      {
        Served32Agrees(cs, bitrate, extra, i);
      }
    }
  }

  /** One iteration of the even split does not wrap. */
  lemma Visit32Agrees(bitrate: nat, n: nat, had: nat, cap: nat)
    requires n > 0 && cap < WIDTH && had + bitrate < WIDTH
    ensures var (rate, left) := Visit(bitrate, n, had, cap);
            && Visit32(bitrate, n, had, U32(cap)) == (rate, left)
            && 0 <= rate && 0 <= left && rate + left == had + bitrate
  {
    ShareBounds(bitrate, n);
  }

  ghost predicate CapsFit(order: seq<Config>, multiplier: nat) {
    forall i :: 0 <= i < |order| ==> multiplier * order[i].maxBitrate < WIDTH
  }

  ghost predicate RatesNonNegative(order: seq<Config>, alloc: Allocation)
    requires Covers(order, alloc)
  {
    forall i :: 0 <= i < |order| ==> alloc[order[i].observer] >= 0
  }

  lemma TailFits(order: seq<Config>, multiplier: nat, alloc: Allocation, rate: nat)
    requires Covers(order, alloc) && UniqueObservers(order) && order != []
    requires RatesNonNegative(order, alloc) && CapsFit(order, multiplier)
    ensures var next := alloc[order[0].observer := rate];
            && RatesNonNegative(order[1..], next) && CapsFit(order[1..], multiplier)
            && Total(order[1..], next) == Total(order, alloc) - alloc[order[0].observer]
            && Total(order[1..], next) >= 0
  {
    var next := alloc[order[0].observer := rate];
    assert forall i :: 0 <= i < |order[1..]| ==> order[1..][i] == order[i + 1];
    TotalFrame(order[1..], alloc, next);
    TotalNonNegative(order[1..], next);
  }

  /** The even split does not wrap while what is allocated and left fits 32 bits. */
  lemma {:induction false} Spread32Agrees(order: seq<Config>, bitrate: nat, multiplier: nat, alloc: Allocation)
    requires Covers(order, alloc) && UniqueObservers(order)
    requires RatesNonNegative(order, alloc) && CapsFit(order, multiplier)
    requires Total(order, alloc) + bitrate < WIDTH
    ensures Spread32(order, bitrate, multiplier, alloc) == Spread(order, bitrate, multiplier, alloc)
    decreases |order|
  {
    if order != [] {
      var cap: nat, had: nat := multiplier * order[0].maxBitrate, alloc[order[0].observer];
      TailFits(order, multiplier, alloc, had);
      Visit32Agrees(bitrate, |order|, had, cap);
      var (rate, left) := Visit(bitrate, |order|, had, cap);
      TailFits(order, multiplier, alloc, rate);
      Spread32Agrees(order[1..], left, multiplier, alloc[order[0].observer := rate]);
    }
  }

  lemma {:induction false} TotalNonNegative(cs: seq<Config>, alloc: Allocation)
    requires Covers(cs, alloc) && RatesNonNegative(cs, alloc)
    ensures Total(cs, alloc) >= 0
  {
    if cs != [] {
      TotalNonNegative(cs[1..], alloc);
    }
  }

  lemma Distribute32Agrees(cs: seq<Config>, bitrate: nat, includeZero: bool, multiplier: nat, alloc: Allocation)
    requires Sane(cs) && Covers(cs, alloc) && multiplier <= 2
    requires forall i :: 0 <= i < |cs| ==> 2 * cs[i].maxBitrate < WIDTH
    requires forall i :: 0 <= i < |cs| ==> alloc[cs[i].observer] >= 0
    requires Total(cs, alloc) + bitrate < WIDTH
    ensures Distribute32(cs, bitrate, includeZero, multiplier, alloc)
         == Distribute(cs, bitrate, includeZero, multiplier, alloc)
  {
    var order := Order(cs, includeZero, alloc);
    OrderMembers(cs, includeZero, alloc);
    OrderSorted(cs, includeZero, alloc);
    OrderTotal(cs, includeZero, alloc, alloc);
    forall k | 0 <= k < |order|
      ensures alloc[order[k].observer] >= 0 && multiplier * order[k].maxBitrate < WIDTH
    {
      assert order[k] in order;
      var i :| 0 <= i < |cs| && cs[i] == order[k];
      ProductOrder(cs[i].maxBitrate, multiplier, 2);
    }
    Spread32Agrees(order, bitrate, multiplier, alloc);
  }

  lemma {:induction false} EnforcedRemaining32Agrees(cs: seq<Config>, remaining: int)
    requires forall i :: 0 <= i < |cs| ==> 2 * ToggledMin(cs[i]) < WIDTH
    ensures EnforcedRemaining32(cs, remaining) == remaining - SumEnforcedMin(cs)
  {
    if cs != [] {
      assert 2 * cs[0].minBitrate < WIDTH;
      EnforcedRemaining32Agrees(cs[1..], remaining - BaseRate(EnforcedOnly, cs[0]));
    }
  }

  lemma {:induction false} AdmitPass32Agrees(cs: seq<Config>, paused: bool, g: Grants)
    requires forall i :: 0 <= i < |cs| ==> WellFormed(cs[i]) && 2 * ToggledMin(cs[i]) < WIDTH
    ensures AdmitPass32(cs, paused, g) == AdmitPass(cs, paused, g)
  {
    if cs != [] {
      Required32Agrees(cs[0]);
      AdmitPass32Agrees(cs[1..], paused, Admit(cs[0], paused, g));
    }
  }

  lemma LowRate32Agrees(cs: seq<Config>, bitrate: nat)
    requires Sane(cs) && Fits(cs, bitrate)
    ensures LowRate32(cs, bitrate) == LowRate(cs, bitrate)
  {
    EnforcedRemaining32Agrees(cs, bitrate);
    var g1 := EnforcedGrants(cs, bitrate);
    AdmitPass32Agrees(cs, false, g1);
    AdmitPass32Agrees(cs, true, AdmitIfAny(cs, false, g1));
    LowGrantsMeaning(cs, bitrate);
    LowGrantsLedger(cs, bitrate);
    var g := LowGrants(cs, bitrate);
    if g.remaining > 0 {
      forall i | 0 <= i < |cs| ensures g.alloc[cs[i].observer] >= 0 {
        assert Granted(cs[i], bitrate, g);
      }
      Distribute32Agrees(cs, g.remaining, false, 1, g.alloc);
    }
  }

  lemma {:induction false} MaxRest32Agrees(cs: seq<Config>, bitrate: nat)
    requires SumMax(cs) <= bitrate < WIDTH
    ensures MaxRest32(cs, bitrate) == bitrate - SumMax(cs)
  {
    if cs != [] {
      MaxRest32Agrees(cs[1..], bitrate - cs[0].maxBitrate);
    }
  }

  /** Within the bound, 32-bit arithmetic computes the unbounded rules. */
  lemma Allocate32Agrees(cs: seq<Config>, bitrate: nat)
    requires Sane(cs) && Fits(cs, bitrate)
    ensures Allocate32(cs, bitrate) == Allocate(cs, bitrate)
  {
    if cs != [] && bitrate > 0 {
      Enough32Agrees(cs, bitrate);
      SumRate32Agrees(Minimum, cs);
      SumRate32Agrees(Maximum, cs);
      if !Enough(cs, bitrate) {
        LowRate32Agrees(cs, bitrate);
      } else if bitrate <= SumMax(cs) {
        BaseMapMeaning(Minimum, cs);
        Distribute32Agrees(cs, bitrate - SumMin(cs), true, 1, BaseMap(Minimum, cs));
      } else {
        BaseMapMeaning(Maximum, cs);
        MaxRest32Agrees(cs, bitrate);
        Distribute32Agrees(cs, bitrate - SumMax(cs), true, 2, BaseMap(Maximum, cs));
      }
    }
  }

  /** Two observers allowed 2^31 bps each. */
  const HUGE := [Config(1, 0, WIDTH / 2, 0, false, 1, 1.0), Config(2, 0, WIDTH / 2, 0, false, 1, 1.0)]

  /** Beyond the bound the sum of maxima wraps around, and the first of two observers gets
      nothing of 1000 bps, where the unbounded rules give it half. */
  lemma WrapAroundStarves()
    ensures Sane(HUGE)
    ensures 1 in Allocate32(HUGE, 1000) && Allocate32(HUGE, 1000)[1] == 0
    ensures 1 in Allocate(HUGE, 1000) && Allocate(HUGE, 1000)[1] >= 500
  {
    HugeSums();
    HugeSpread();
    NormalRateAt(HUGE, 1000, 0);
  }

  lemma HugeSums()
    ensures SumRate32(Minimum, HUGE) == SumRate32(Maximum, HUGE) == 0
    ensures MaxRest32(HUGE, 1000) == 1000
    ensures SumMin(HUGE) == 0 && SumMax(HUGE) == WIDTH
  {
    var a, b := HUGE[0], HUGE[1];
    assert HUGE[..1] == [a] && [a][..0] == [] && HUGE[1..] == [b] && [b][1..] == [];
    assert SumRate32(Maximum, [a]) == WIDTH / 2;
    assert SumRate32(Minimum, [a]) == 0;
    assert SumRate(Minimum, [b]) == 0;
    assert SumRate(Maximum, [b]) == WIDTH / 2;
    assert MaxRest32([b], U32(1000 - WIDTH / 2)) == 1000;
  }

  lemma HugeSpread()
    ensures 1 in MaxRate32(HUGE, 1000) && MaxRate32(HUGE, 1000)[1] == 0
  {
    var a, b, base := HUGE[0], HUGE[1], BaseMap(Maximum, HUGE);
    BaseMapMeaning(Maximum, HUGE);
    HugeSums();
    assert base[HUGE[0].observer] == WIDTH / 2 && base[HUGE[1].observer] == WIDTH / 2;
    assert HUGE[..1] == [a] && [a][..0] == [] && HUGE[1..] == [b] && [a][1..] == [] && [b][1..] == [];
    assert Insert(b, [a]) == [a, b];
    assert Order([a], true, base) == [a];
    assert Order(HUGE, true, base) == HUGE;
    assert Spread32(HUGE, 1000, 2, base) == Spread32([b], U32(500 + U32(500 + WIDTH / 2)), 2, base[1 := 0]);
  }
}
