/** Whether more bitrate is ever worse: where in the regimes an observer can lose rate by it,
    and which observers never do.
 */
module MoreBitrate {
  import opened EvenShares
  import opened Observers
  import opened Distribution
  import opened AllocationRules
  import opened RegimeTheorems

  // ---------- the same grants ----------

  /** The grant of record `j` rises with the bitrate. */
  ghost predicate Gains(cs: seq<Config>, low: nat, high: nat, j: nat)
    requires Sane(cs) && j < |cs|
  {
    LowRateCovers(cs, low);
    LowRateCovers(cs, high);
    LowGrants(cs, low).alloc[cs[j].observer] < LowGrants(cs, high).alloc[cs[j].observer]
  }

  ghost predicate NobodyGains(cs: seq<Config>, low: nat, high: nat)
    requires Sane(cs)
  {
    forall j :: 0 <= j < |cs| ==> !Gains(cs, low, high, j)
  }

  lemma {:induction false} SameActiveGrants(cs: seq<Config>, low: nat, high: nat, k: nat)
    requires Sane(cs) && low <= high && NobodyGains(cs, low, high) && k <= |cs|
    ensures Covers(cs, LowGrants(cs, low).alloc) && Covers(cs, LowGrants(cs, high).alloc)
    ensures forall j :: 0 <= j < k && !Paused(cs[j]) ==>
                          LowGrants(cs, low).alloc[cs[j].observer] == LowGrants(cs, high).alloc[cs[j].observer]
    decreases k
  {
    LowRateCovers(cs, low);
    LowRateCovers(cs, high);
    if k > 0 {
      SameActiveGrants(cs, low, high, k - 1);
      ChargesFrame(cs[..k - 1], false, LowGrants(cs, low).alloc, LowGrants(cs, high).alloc);
      assert !Gains(cs, low, high, k - 1);
      LowRateAdmission(cs, low, k - 1);
      LowRateAdmission(cs, high, k - 1);
    }
  }

  lemma {:induction false} SamePausedGrants(cs: seq<Config>, low: nat, high: nat, k: nat)
    requires Sane(cs) && low <= high && NobodyGains(cs, low, high) && k <= |cs|
    ensures Covers(cs, LowGrants(cs, low).alloc) && Covers(cs, LowGrants(cs, high).alloc)
    ensures forall j :: 0 <= j < k && Paused(cs[j]) ==>
                          LowGrants(cs, low).alloc[cs[j].observer] == LowGrants(cs, high).alloc[cs[j].observer]
    decreases k
  {
    LowRateCovers(cs, low);
    LowRateCovers(cs, high);
    if k > 0 {
      var a, b := LowGrants(cs, low).alloc, LowGrants(cs, high).alloc;
      SamePausedGrants(cs, low, high, k - 1);
      SameActiveGrants(cs, low, high, |cs|);
      ChargesFrame(cs, false, a, b);
      ChargesFrame(cs[..k - 1], true, a, b);
      assert !Gains(cs, low, high, k - 1);
      LowRateAdmission(cs, low, k - 1);
      LowRateAdmission(cs, high, k - 1);
    }
  }

  lemma LowGrantsKeys(cs: seq<Config>, bitrate: nat)
    requires Sane(cs)
    ensures LowGrants(cs, bitrate).alloc.Keys == BaseMap(EnforcedOnly, cs).Keys
  {
    AdmitIfAnyMeaning(cs, false, EnforcedGrants(cs, bitrate));
    AdmitIfAnyMeaning(cs, true, ActiveGrants(cs, bitrate));
  }

  /** If nobody gains a grant, the grants are the same and the difference is left to split. */
  lemma SameGrants(cs: seq<Config>, low: nat, high: nat)
    requires Sane(cs) && low <= high && NobodyGains(cs, low, high)
    ensures LowGrants(cs, low).alloc == LowGrants(cs, high).alloc
    ensures LowGrants(cs, high).remaining == LowGrants(cs, low).remaining + (high - low)
  {
    var a, b := LowGrants(cs, low).alloc, LowGrants(cs, high).alloc;
    SameActiveGrants(cs, low, high, |cs|);
    SamePausedGrants(cs, low, high, |cs|);
    LowGrantsKeys(cs, low);
    LowGrantsKeys(cs, high);
    BaseMapKeys(EnforcedOnly, cs);
    forall id | id in a ensures a[id] == b[id] {
      var i :| 0 <= i < |cs| && cs[i].observer == id;
    }
    assert a == b;
    if cs != [] {
      LowRateAdmission(cs, low, 0);
      LowRateAdmission(cs, high, 0);
    }
  }

  // ---------- where an observer can lose ----------

  ghost predicate SomebodyElseGains(cs: seq<Config>, low: nat, high: nat, i: nat)
    requires Sane(cs)
  {
    exists j :: 0 <= j < |cs| && j != i && Gains(cs, low, high, j)
  }

  lemma SameGrantsMonotone(cs: seq<Config>, low: nat, high: nat, i: nat)
    requires Sane(cs) && i < |cs| && low <= high && NobodyGains(cs, low, high)
    requires Required(cs[i]) <= cs[i].maxBitrate
    ensures cs[i].observer in LowRate(cs, low) && cs[i].observer in LowRate(cs, high)
    ensures LowRate(cs, low)[cs[i].observer] <= LowRate(cs, high)[cs[i].observer]
  {
    var g := LowGrants(cs, low);
    SameGrants(cs, low, high);
    LowRateShares(cs, low, i);
    LowRateShares(cs, high, i);
    if g.remaining > 0 {
      DistributeMonotone(cs, g.remaining, g.remaining + (high - low), false, 1, g.alloc, i);
    } else if g.remaining + (high - low) > 0 {
      LowGrantsMeaning(cs, low);
      assert Granted(cs[i], low, g);
      if g.alloc[cs[i].observer] != 0 {
        QuotientMonotone(0, g.remaining + (high - low), |Order(cs, false, g.alloc)|);
      }
    }
  }

  /** An observer without an enforced minimum that gains had nothing. */
  lemma GainsFromNothing(cs: seq<Config>, low: nat, high: nat, i: nat)
    requires Sane(cs) && i < |cs| && !cs[i].enforceMin && Gains(cs, low, high, i)
    ensures cs[i].observer in LowRate(cs, low) && LowRate(cs, low)[cs[i].observer] == 0
  {
    LowGrantsMeaning(cs, low);
    LowGrantsMeaning(cs, high);
    assert Granted(cs[i], low, LowGrants(cs, low)) && Granted(cs[i], high, LowGrants(cs, high));
    LowRateShares(cs, low, i);
  }

  /** In the low regime more bitrate costs an observer, whose requirement is within its
      maximum, rate only where it lets in somebody else, or where the observer has an
      enforced minimum and is charged for it again. */
  lemma LowRateMonotone(cs: seq<Config>, low: nat, high: nat, i: nat)
    requires Sane(cs) && i < |cs| && low <= high && Required(cs[i]) <= cs[i].maxBitrate
    requires !SomebodyElseGains(cs, low, high, i) && !(cs[i].enforceMin && Gains(cs, low, high, i))
    ensures cs[i].observer in LowRate(cs, low) && cs[i].observer in LowRate(cs, high)
    ensures LowRate(cs, low)[cs[i].observer] <= LowRate(cs, high)[cs[i].observer]
  {
    if Gains(cs, low, high, i) {
      GainsFromNothing(cs, low, high, i);
      LowRateAt(cs, high, i);
    } else {
      SameGrantsMonotone(cs, low, high, i);
    }
  }

  /** The third pass charges an enforced observer again, and that leaves it less than an
      even share did. */
  ghost predicate LosesToSecondCharge(cs: seq<Config>, low: nat, high: nat, i: nat)
    requires Sane(cs) && i < |cs|
  {
    && Gains(cs, low, high, i) && cs[i].enforceMin && Paused(cs[i])
    && 0 < cs[i].minBitrate && Required(cs[i]) < cs[i].maxBitrate
  }

  lemma LossByGain(cs: seq<Config>, low: nat, high: nat, i: nat)
    requires Sane(cs) && i < |cs| && Required(cs[i]) <= cs[i].maxBitrate
    requires cs[i].enforceMin && Gains(cs, low, high, i)
    requires Covers(cs, LowRate(cs, low)) && Covers(cs, LowRate(cs, high))
    requires LowRate(cs, high)[cs[i].observer] < LowRate(cs, low)[cs[i].observer]
    ensures LosesToSecondCharge(cs, low, high, i)
  {
    LowRateAdmission(cs, low, i);
    LowRateAdmission(cs, high, i);
    LowRateShares(cs, low, i);
    LowRateShares(cs, high, i);
    var g := LowGrants(cs, high);
    if g.remaining > 0 {
      QuotientMonotone(0, g.remaining, |Order(cs, false, g.alloc)|);
    }
  }

  /** The three places where more bitrate can cost an observer rate, if its requirement is
      within its maximum. */
  lemma WhereRateFalls(cs: seq<Config>, low: nat, high: nat, i: nat)
    requires Sane(cs) && i < |cs| && low <= high && Required(cs[i]) <= cs[i].maxBitrate
    requires Covers(cs, Allocate(cs, low)) && Covers(cs, Allocate(cs, high))
    requires Allocate(cs, high)[cs[i].observer] < Allocate(cs, low)[cs[i].observer]
    ensures if Enough(cs, high) then !Enough(cs, low)
            else SomebodyElseGains(cs, low, high, i) || LosesToSecondCharge(cs, low, high, i)
  {
    AllocateAt(cs, low, i);
    AllocateAt(cs, high, i);
    if Enough(cs, low) {
      AllocateMonotone(cs, low, high, i);
    } else if !Enough(cs, high) && !SomebodyElseGains(cs, low, high, i) {
      LowRateCovers(cs, low);
      LowRateCovers(cs, high);
      if cs[i].enforceMin && Gains(cs, low, high, i) {
        LossByGain(cs, low, high, i);
      } else {
        LowRateMonotone(cs, low, high, i);
      }
    }
  }

  // ---------- who never loses ----------

  /** More bitrate never costs `c` rate, whatever its company. */
  ghost predicate NeverLoses(c: Config) {
    forall cs: seq<Config>, low: nat, high: nat :: Sane(cs) && c in cs && low <= high ==>
      KeepsUp(cs, low, high, c.observer)
  }

  ghost predicate KeepsUp(cs: seq<Config>, low: nat, high: nat, observer: ObserverId)
    requires Sane(cs)
  {
    && observer in Allocate(cs, low) && observer in Allocate(cs, high)
    && Allocate(cs, low)[observer] <= Allocate(cs, high)[observer]
  }

  /** An active observer that the low regime leaves no choice: it gives it nothing, or always
      its maximum. */
  predicate Indifferent(c: Config) {
    !Paused(c) && (c.minBitrate == 0 || (c.enforceMin && c.minBitrate == c.maxBitrate))
  }

  lemma IndifferentLow(cs: seq<Config>, bitrate: nat, i: nat)
    requires Sane(cs) && i < |cs| && Indifferent(cs[i])
    ensures cs[i].observer in LowRate(cs, bitrate)
    ensures LowRate(cs, bitrate)[cs[i].observer] == cs[i].minBitrate
  {
    LowRateAdmission(cs, bitrate, i);
    LowRateShares(cs, bitrate, i);
    var g := LowGrants(cs, bitrate);
    if g.remaining > 0 && g.alloc[cs[i].observer] != 0 {
      QuotientMonotone(0, g.remaining, |Order(cs, false, g.alloc)|);
    }
  }

  lemma IndifferentNeverLoses(cs: seq<Config>, low: nat, high: nat, i: nat)
    requires Sane(cs) && i < |cs| && Indifferent(cs[i]) && low <= high
    ensures KeepsUp(cs, low, high, cs[i].observer)
  {
    AllocateAt(cs, low, i);
    AllocateAt(cs, high, i);
    if Enough(cs, low) {
      AllocateMonotone(cs, low, high, i);
    } else if low > 0 {
      IndifferentLow(cs, low, i);
      if Enough(cs, high) {
        EnoughServesAll(cs, high, i);
      } else {
        IndifferentLow(cs, high, i);
      }
    }
  }

  /** `c` behind an active rival that needs 1 bps more. */
  function Rivalled(c: Config): seq<Config> {
    [Config(c.observer + 1, Required(c) + 1, Required(c) + 1, 0, false, 1, 1.0), c]
  }

  /** With what `c` requires it gets that, with 1 bps more only what is enforced. */
  lemma RivalledLow(c: Config, bitrate: nat)
    requires WellFormed(c) && Required(c) > 0 && (c.enforceMin ==> Paused(c))
    requires BaseRate(EnforcedOnly, c) + Required(c) <= bitrate <= BaseRate(EnforcedOnly, c) + Required(c) + 1
    ensures Sane(Rivalled(c)) && c.observer in LowRate(Rivalled(c), bitrate)
    ensures LowRate(Rivalled(c), bitrate)[c.observer] ==
            if bitrate == BaseRate(EnforcedOnly, c) + Required(c) then Required(c) else BaseRate(EnforcedOnly, c)
  {
    var cs, g := Rivalled(c), LowGrants(Rivalled(c), bitrate);
    assert Required(cs[0]) == Required(c) + 1;
    PairSums(cs, EnforcedOnly);
    LowRateAdmission(cs, bitrate, 0);
    LowRateAdmission(cs, bitrate, 1);
    PairCharges(cs, false, g.alloc);
    PairCharges(cs, true, g.alloc);
    LowRateShares(cs, bitrate, 1);
  }

  lemma RivalledNotEnough(c: Config, bitrate: nat)
    requires WellFormed(c) && Required(c) > 0 && (c.enforceMin ==> Paused(c))
    requires bitrate <= BaseRate(EnforcedOnly, c) + Required(c) + 1
    ensures !Enough(Rivalled(c), bitrate)
  {
    PairSums(Rivalled(c), Minimum);
    assert Rivalled(c)[1] == c;
  }

  lemma RivalledLoses(c: Config)
    requires WellFormed(c) && Required(c) > 0 && (c.enforceMin ==> Paused(c))
    ensures !NeverLoses(c)
  {
    var cs, low := Rivalled(c), BaseRate(EnforcedOnly, c) + Required(c);
    RivalledLow(c, low);
    RivalledLow(c, low + 1);
    RivalledNotEnough(c, low);
    RivalledNotEnough(c, low + 1);
    assert c == cs[1] && c in cs;
    assert !KeepsUp(cs, low, low + 1, c.observer);
  }

  /** `c` ahead of a paused observer without limits, which asks for 20 kbps. */
  function Awaited(c: Config): seq<Config> {
    [c, Config(c.observer + 1, 0, 0, 0, false, 0, 1.0)]
  }

  lemma AwaitedNotEnough(c: Config, bitrate: nat)
    requires bitrate <= c.minBitrate + MIN_TOGGLE_BITRATE_BPS
    ensures !Enough(Awaited(c), bitrate)
  {
    PairSums(Awaited(c), Minimum);
    assert Required(Awaited(c)[1]) == MIN_TOGGLE_BITRATE_BPS;
  }

  lemma AwaitedGrants(c: Config, bitrate: nat)
    requires WellFormed(c) && c.enforceMin && !Paused(c)
    requires c.minBitrate <= bitrate <= c.minBitrate + MIN_TOGGLE_BITRATE_BPS
    ensures Sane(Awaited(c))
    ensures var g, rest := LowGrants(Awaited(c), bitrate), bitrate - c.minBitrate;
            && Covers(Awaited(c), g.alloc) && g.alloc[c.observer] == c.minBitrate
            && g.remaining == if rest == MIN_TOGGLE_BITRATE_BPS then 0 else rest
  {
    var cs, g := Awaited(c), LowGrants(Awaited(c), bitrate);
    assert Required(cs[1]) == MIN_TOGGLE_BITRATE_BPS;
    PairSums(cs, EnforcedOnly);
    LowRateAdmission(cs, bitrate, 0);
    LowRateAdmission(cs, bitrate, 1);
    PairCharges(cs, false, g.alloc);
    PairCharges(cs, true, g.alloc);
  }

  /** The waiting observer takes the share that lifted `c` above its minimum. */
  lemma AwaitedLow(c: Config)
    requires WellFormed(c) && c.enforceMin && !Paused(c) && 0 < c.minBitrate
    ensures var cs := Awaited(c);
            && Sane(cs)
            && c.observer in LowRate(cs, c.minBitrate) && c.observer in LowRate(cs, c.minBitrate + 1)
            && c.observer in LowRate(cs, c.minBitrate + 19999) && c.observer in LowRate(cs, c.minBitrate + 20000)
            && LowRate(cs, c.minBitrate)[c.observer] == c.minBitrate
            && LowRate(cs, c.minBitrate + 1)[c.observer] <= c.maxBitrate
            && LowRate(cs, c.minBitrate + 19999)[c.observer] >= Min(c.minBitrate + 1, c.maxBitrate)
            && LowRate(cs, c.minBitrate + 20000)[c.observer] == c.minBitrate
  {
    var cs := Awaited(c);
    assert cs[0] == c;
    AwaitedGrants(c, c.minBitrate);
    AwaitedGrants(c, c.minBitrate + 1);
    AwaitedGrants(c, c.minBitrate + 19999);
    AwaitedGrants(c, c.minBitrate + 20000);
    LowRateShares(cs, c.minBitrate, 0);
    LowRateShares(cs, c.minBitrate + 1, 0);
    LowRateShares(cs, c.minBitrate + 19999, 0);
    LowRateShares(cs, c.minBitrate + 20000, 0);
    OrderMembers(cs, false, LowGrants(cs, c.minBitrate + 19999).alloc);
  }

  lemma AwaitedLoses(c: Config)
    requires WellFormed(c) && c.enforceMin && !Paused(c) && 0 < c.minBitrate != c.maxBitrate
    ensures !NeverLoses(c)
  {
    var cs, lo := Awaited(c), c.minBitrate;
    AwaitedLow(c);
    AwaitedNotEnough(c, lo);
    AwaitedNotEnough(c, lo + 1);
    AwaitedNotEnough(c, lo + 19999);
    AwaitedNotEnough(c, lo + 20000);
    assert c == cs[0] && c in cs;
    if lo < c.maxBitrate {
      assert !KeepsUp(cs, lo + 19999, lo + 20000, c.observer);
    } else {
      assert !KeepsUp(cs, lo, lo + 1, c.observer);
    }
  }

  /** More bitrate never costs an observer rate, whatever its company, exactly when it is
      active and has no minimum, or an enforced one that equals its maximum. */
  lemma NeverLosesIff(c: Config)
    requires WellFormed(c)
    ensures NeverLoses(c) <==> Indifferent(c)
  {
    if Indifferent(c) {
      forall cs: seq<Config>, low: nat, high: nat | Sane(cs) && c in cs && low <= high
        ensures KeepsUp(cs, low, high, c.observer)
      {
        var i :| 0 <= i < |cs| && cs[i] == c;
        IndifferentNeverLoses(cs, low, high, i);
      }
    } else if c.enforceMin && !Paused(c) {
      AwaitedLoses(c);
    } else {
      RivalledLoses(c);
    }
  }

  // ---------- one input for each place ----------

  lemma ResumingSums()
    ensures SumEnforcedMin(RESUMING) == 10000 && SumMin(RESUMING) == 110000
    ensures Required(RESUMING[0]) == 30000 && Required(RESUMING[1]) == 120000
  {
    PairSums(RESUMING, EnforcedOnly);
    PairSums(RESUMING, Minimum);
  }

  lemma ResumingPasses(bitrate: nat)
    requires 10000 <= bitrate < 110000
    ensures Sane(RESUMING)
    ensures var g := LowGrants(RESUMING, bitrate);
            && Covers(RESUMING, g.alloc) && g.alloc[2] == 0
            && g.alloc[1] == (if bitrate < 40000 then 10000 else 30000)
            && g.remaining == bitrate - if bitrate < 40000 then 10000 else 40000
  {
    var cs, g := RESUMING, LowGrants(RESUMING, bitrate);
    ResumingSums();
    LowRateAdmission(cs, bitrate, 0);
    LowRateAdmission(cs, bitrate, 1);
    PairCharges(cs, false, g.alloc);
    PairCharges(cs, true, g.alloc);
  }

  /** The enforced stream gets all of 39999 bps. With 1 bps more the third pass charges it for
      its minimum again, and it gets 30000; the other stream gets nothing both times. */
  lemma SecondChargeCosts()
    ensures Sane(RESUMING) && !Enough(RESUMING, 39999) && !Enough(RESUMING, 40000)
    ensures Covers(RESUMING, Allocate(RESUMING, 39999)) && Covers(RESUMING, Allocate(RESUMING, 40000))
    ensures Allocate(RESUMING, 39999)[1] == 39999 && Allocate(RESUMING, 39999)[2] == 0
    ensures Allocate(RESUMING, 40000)[1] == 30000 && Allocate(RESUMING, 40000)[2] == 0
  {
    ResumingSums();
    ResumingRate(39999);
    ResumingRate(40000);
  }

  lemma ResumingRate(bitrate: nat)
    requires 10000 <= bitrate <= 40000
    ensures Covers(RESUMING, LowRate(RESUMING, bitrate)) && LowRate(RESUMING, bitrate)[2] == 0
    ensures LowRate(RESUMING, bitrate)[1] == if bitrate < 40000 then bitrate else 30000
  {
    var cs, a, g := RESUMING, RESUMING[0], LowGrants(RESUMING, bitrate);
    ResumingPasses(bitrate);
    LowRateShares(cs, bitrate, 0);
    LowRateShares(cs, bitrate, 1);
    if 10000 < bitrate < 40000 {
      assert cs[..1] == [a] && [a][..0] == [];
      assert Order([a], false, g.alloc) == [a];
      assert Order(cs, false, g.alloc) == [a];
      LowRateTotal(cs, bitrate);
      PairTotal(cs, LowRate(cs, bitrate));
    }
  }

  /** Two active observers that cannot both have their minimum. */
  const RIVALS := [Config(1, 100, 200, 0, false, 100, 1.0), Config(2, 60, 100, 0, false, 60, 1.0)]

  /** The second gets all of 90 bps, and nothing of 110, because these let in the first. */
  lemma MoreBitrateDenies()
    ensures Sane(RIVALS) && !Enough(RIVALS, 90) && !Enough(RIVALS, 110)
    ensures Allocate(RIVALS, 90) == map[1 := 0, 2 := 90]
    ensures Allocate(RIVALS, 110) == map[1 := 110, 2 := 0]
  {
    RivalsSums();
    RivalsLow();
    RivalsHigh();
  }

  lemma RivalsSums()
    ensures !Enough(RIVALS, 90) && !Enough(RIVALS, 110)
    ensures SumEnforcedMin(RIVALS) == 0 && BaseMap(EnforcedOnly, RIVALS) == map[1 := 0, 2 := 0]
  {
    var cs, a := RIVALS, RIVALS[0];
    PairSums(cs, EnforcedOnly);
    PairSums(cs, Minimum);
    assert cs[..1] == [a] && [a][..0] == [];
    assert BaseMap(EnforcedOnly, [a]) == map[1 := 0];
    assert SumMin(cs) == 160;
  }

  lemma RivalsPasses(bitrate: nat)
    requires 60 <= bitrate < 160
    ensures LowGrants(RIVALS, bitrate) ==
            if bitrate < 100 then Grants(map[1 := 0, 2 := 60], bitrate - 60)
            else Grants(map[1 := 100, 2 := 0], bitrate - 100)
  {
    var cs, a, b, none := RIVALS, RIVALS[0], RIVALS[1], map[1 := 0, 2 := 0];
    RivalsSums();
    assert cs[1..] == [b] && [b][1..] == [];
    assert Required(a) == 100 && Required(b) == 60;
    assert none[1 := 100] == map[1 := 100, 2 := 0] && none[2 := 60] == map[1 := 0, 2 := 60];
    var start := Grants(none, bitrate);
    assert EnforcedGrants(cs, bitrate) == start;
    var first := Admit(a, false, start);
    assert AdmitPass(cs, false, start) == AdmitPass([b], false, first) == Admit(b, false, first);
    var g := ActiveGrants(cs, bitrate);
    assert AdmitPass(cs, true, g) == g by {
      assert AdmitPass([b], true, g) == g;
    }
  }

  lemma RivalsLow()
    ensures Sane(RIVALS) && LowRate(RIVALS, 90) == map[1 := 0, 2 := 90]
  {
    var cs, a, b, alloc := RIVALS, RIVALS[0], RIVALS[1], map[1 := 0, 2 := 60];
    RivalsPasses(90);
    assert cs[..1] == [a] && [a][..0] == [] && [b][1..] == [];
    assert Order([a], false, alloc) == [];
    assert Order(cs, false, alloc) == [b];
    assert LowRate(cs, 90) == Spread([b], 30, 1, alloc);
  }

  lemma RivalsHigh()
    ensures Sane(RIVALS) && LowRate(RIVALS, 110) == map[1 := 110, 2 := 0]
  {
    var cs, a, alloc := RIVALS, RIVALS[0], map[1 := 100, 2 := 0];
    RivalsPasses(110);
    assert cs[..1] == [a] && [a][..0] == [] && [a][1..] == [];
    assert Order([a], false, alloc) == [a];
    assert Order(cs, false, alloc) == [a];
    assert LowRate(cs, 110) == Spread([a], 10, 1, alloc);
  }

  /** A paused and an active observer. */
  const UNEQUAL := [Config(1, 10000, 100000, 0, false, 0, 1.0), Config(2, 10000, 100000, 0, false, 10000, 1.0)]

  /** The paused one loses rate where there comes to be enough for all: what exceeds the
      minima is split evenly then, resume margin included. */
  lemma EnoughCostsRate()
    ensures Sane(UNEQUAL) && !Enough(UNEQUAL, 45000) && Enough(UNEQUAL, 60000)
    ensures Allocate(UNEQUAL, 45000) == map[1 := 32500, 2 := 12500]
    ensures Allocate(UNEQUAL, 60000) == map[1 := 30000, 2 := 30000]
  {
    UnequalSums();
    UnequalLow();
    UnequalNormal();
  }

  lemma UnequalSums()
    ensures SumMin(UNEQUAL) == 20000 && SumMax(UNEQUAL) == 200000 && SumEnforcedMin(UNEQUAL) == 0
    ensures !Enough(UNEQUAL, 45000) && Enough(UNEQUAL, 60000)
    ensures BaseMap(EnforcedOnly, UNEQUAL) == map[1 := 0, 2 := 0]
    ensures BaseMap(Minimum, UNEQUAL) == map[1 := 10000, 2 := 10000]
  {
    var cs, a := UNEQUAL, UNEQUAL[0];
    PairSums(cs, EnforcedOnly);
    PairSums(cs, Minimum);
    PairSums(cs, Maximum);
    assert cs[..1] == [a] && [a][..0] == [];
    assert Required(cs[0]) == 30000 && Required(cs[1]) == 10000;
    assert BaseMap(EnforcedOnly, [a]) == map[1 := 0] && BaseMap(Minimum, [a]) == map[1 := 10000];
  }

  lemma UnequalOrder(includeZero: bool, alloc: Allocation)
    requires Covers(UNEQUAL, alloc) && 1 in alloc && 2 in alloc && alloc[1] != 0 && alloc[2] != 0
    ensures Order(UNEQUAL, includeZero, alloc) == UNEQUAL
  {
    var a, b := UNEQUAL[0], UNEQUAL[1];
    assert UNEQUAL[..1] == [a] && [a][..0] == [] && [a][1..] == [];
    assert Order([a], includeZero, alloc) == [a];
    assert Insert(b, [a]) == [a, b];
  }

  lemma UnequalGrants()
    ensures LowGrants(UNEQUAL, 45000) == Grants(map[1 := 30000, 2 := 10000], 5000)
  {
    var cs, b := UNEQUAL, UNEQUAL[1];
    UnequalSums();
    var none, active, all := map[1 := 0, 2 := 0], map[1 := 0, 2 := 10000], map[1 := 30000, 2 := 10000];
    assert none[2 := 10000] == active && active[1 := 30000] == all;
    assert cs[1..] == [b] && [b][1..] == [];
    assert AdmitPass(cs, false, Grants(none, 45000)) == AdmitPass([b], false, Grants(none, 45000));
    assert AdmitPass(cs, true, Grants(active, 35000)) == AdmitPass([b], true, Grants(all, 5000));
  }

  lemma UnequalLow()
    ensures Sane(UNEQUAL) && LowRate(UNEQUAL, 45000) == map[1 := 32500, 2 := 12500]
  {
    var cs, b, granted := UNEQUAL, UNEQUAL[1], map[1 := 30000, 2 := 10000];
    UnequalGrants();
    UnequalOrder(false, granted);
    assert cs[1..] == [b] && [b][1..] == [];
    assert LowRate(cs, 45000) == Spread([b], 2500, 1, granted[1 := 32500]);
  }

  lemma UnequalNormal()
    ensures Sane(UNEQUAL) && NormalRate(UNEQUAL, 60000) == map[1 := 30000, 2 := 30000]
  {
    var cs, b, base := UNEQUAL, UNEQUAL[1], BaseMap(Minimum, UNEQUAL);
    UnequalSums();
    UnequalOrder(true, base);
    assert cs[1..] == [b] && [b][1..] == [];
    assert Distribute(cs, 40000, true, 1, base) == Spread([b], 20000, 1, base[1 := 30000]);
  }
}
