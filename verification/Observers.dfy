/** The allocator's record per send stream, and what is computed from one record.
    Bitrates are unbounded integers here; `Width32` bounds them.
 */
module Observers {
  import opened EvenShares

  type ObserverId = int

  const TOGGLE_DIVISOR := 10
  const MIN_TOGGLE_BITRATE_BPS := 20000

  /** `granted == -1` marks an observer that never got an allocation. */
  datatype Config = Config(
    observer: ObserverId,
    minBitrate: nat,
    maxBitrate: nat,
    padUp: nat,
    enforceMin: bool,
    granted: int,
    mediaRatio: real)

  type Allocation = map<ObserverId, int>

  ghost predicate WellFormed(c: Config) {
    && -1 <= c.granted
    && 0.0 <= c.mediaRatio <= 1.0
  }

  /** Nothing makes an observer's limits ordered; what depends on it says so. */
  predicate Ordered(c: Config) { c.minBitrate <= c.maxBitrate }

  ghost predicate AllOrdered(cs: seq<Config>) {
    forall i :: 0 <= i < |cs| ==> Ordered(cs[i])
  }

  ghost predicate UniqueObservers(cs: seq<Config>) {
    forall i, j :: 0 <= i < j < |cs| ==> cs[i].observer != cs[j].observer
  }

  ghost predicate Sane(cs: seq<Config>) {
    UniqueObservers(cs) && forall i :: 0 <= i < |cs| ==> WellFormed(cs[i])
  }

  /** Every observer has an entry. */
  ghost predicate Covers(cs: seq<Config>, alloc: Allocation) {
    forall i :: 0 <= i < |cs| ==> cs[i].observer in alloc
  }

  /** The part of the total spent on media; `protection` is the observer's answer. */
  function MediaRatio(granted: int, protection: nat): (ratio: real)
    requires granted > 0 && protection <= granted
    ensures 0.0 <= ratio <= 1.0
    ensures ratio * (granted as real) == (granted - protection) as real
  {
    if protection == 0 then 1.0
    else (granted - protection) as real / granted as real
  }

  /** A new observer counts as if it had its minimum. */
  function LastAllocated(c: Config): int {
    if c.granted == -1 then c.minBitrate else c.granted
  }

  predicate Paused(c: Config) { LastAllocated(c) == 0 }

  /** The minimum plus, for a paused observer, the resume margin. */
  function ToggledMin(c: Config): nat {
    c.minBitrate + if Paused(c) then Max(c.minBitrate / TOGGLE_DIVISOR, MIN_TOGGLE_BITRATE_BPS) else 0
  }

  /** MinBitrateWithHysteresis: the rate needed to serve the observer, with room
      for the protection it used last. */
  function Required(c: Config): (r: nat)
    ensures c.minBitrate <= ToggledMin(c) <= r
    ensures Paused(c) ==> r >= c.minBitrate + Max(c.minBitrate / TOGGLE_DIVISOR, MIN_TOGGLE_BITRATE_BPS)
    ensures r <= 2 * ToggledMin(c)
  {
    var m := ToggledMin(c);
    if 0.0 < c.mediaRatio < 1.0 then m + Scaled(m, 1.0 - c.mediaRatio) else m
  }

  /** The required rate in the record's own fields. An observer that holds a rate, or is new
      and has a minimum, needs its minimum; any other needs 10% or 20 kbps more. On top of
      that comes the share of it that protection took last, rounded down. */
  lemma RequiredExact(c: Config)
    requires WellFormed(c)
    ensures var lo, r := c.minBitrate, Required(c);
            var m := if c.granted > 0 || (c.granted == -1 && lo > 0) then lo else lo + Max(lo / 10, 20000);
            if 0.0 < c.mediaRatio < 1.0
            then (r - m) as real <= m as real * (1.0 - c.mediaRatio) < (r - m + 1) as real
            else r == m
  {
  }

  lemma ShareOfReal(whole: real, share: real)
    requires 0.0 <= whole && 0.0 <= share <= 1.0
    ensures 0.0 <= whole * share <= whole
  {
    assert whole * (1.0 - share) >= 0.0;
    assert whole * (1.0 - share) == whole - whole * share;
  }

  /** A share of a rate, rounded down. */
  function Scaled(m: nat, share: real): (r: nat)
    requires 0.0 <= share <= 1.0
    ensures r <= m
  {
    ShareOfReal(m as real, share);
    var scaled := m as real * share;
    assert 0.0 <= scaled <= m as real;
    scaled.Floor
  }

  // ---------- totals ----------

  function Total(cs: seq<Config>, alloc: Allocation): int
    requires Covers(cs, alloc)
  {
    if cs == [] then 0 else alloc[cs[0].observer] + Total(cs[1..], alloc)
  }

  /** The starting points a regime hands out before splitting the rest. */
  datatype Baseline = Nothing | EnforcedOnly | Minimum | Maximum

  function BaseRate(base: Baseline, c: Config): nat {
    match base
    case Nothing => 0
    case EnforcedOnly => if c.enforceMin then c.minBitrate else 0
    case Minimum => c.minBitrate
    case Maximum => c.maxBitrate
  }

  function SumRate(base: Baseline, cs: seq<Config>): nat {
    if cs == [] then 0 else BaseRate(base, cs[0]) + SumRate(base, cs[1..])
  }

  function SumMin(cs: seq<Config>): nat { SumRate(Minimum, cs) }

  function SumMax(cs: seq<Config>): nat { SumRate(Maximum, cs) }

  function SumEnforcedMin(cs: seq<Config>): nat { SumRate(EnforcedOnly, cs) }

  /** One entry per observer, written in order of registration. */
  function BaseMap(base: Baseline, cs: seq<Config>): (alloc: Allocation)
    ensures Covers(cs, alloc)
  {
    if cs == [] then map[]
    else
      var init, c := cs[..|cs| - 1], cs[|cs| - 1];
      BaseMap(base, init)[c.observer := BaseRate(base, c)]
  }

  lemma {:induction false} TotalFrame(cs: seq<Config>, a: Allocation, b: Allocation)
    requires Covers(cs, a) && Covers(cs, b)
    requires forall i :: 0 <= i < |cs| ==> a[cs[i].observer] == b[cs[i].observer]
    ensures Total(cs, a) == Total(cs, b)
  {
    if cs != [] {
      TotalFrame(cs[1..], a, b);
    }
  }

  lemma {:induction false} TotalUpdate(cs: seq<Config>, alloc: Allocation, k: nat, v: int)
    requires Covers(cs, alloc) && UniqueObservers(cs) && k < |cs|
    ensures Total(cs, alloc[cs[k].observer := v]) == Total(cs, alloc) - alloc[cs[k].observer] + v
  {
    var after := alloc[cs[k].observer := v];
    if k == 0 {
      TotalFrame(cs[1..], alloc, after);
    } else {
      TotalUpdate(cs[1..], alloc, k - 1, v);
    }
  }

  lemma {:induction false} TotalAppend(cs: seq<Config>, c: Config, alloc: Allocation)
    requires Covers(cs, alloc) && c.observer in alloc
    ensures Covers(cs + [c], alloc)
    ensures Total(cs + [c], alloc) == Total(cs, alloc) + alloc[c.observer]
  {
    if cs != [] {
      TotalAppend(cs[1..], c, alloc);
      assert (cs + [c])[1..] == cs[1..] + [c];
    } else {
      assert (cs + [c])[1..] == [];
    }
  }

  lemma {:induction false} RateBelowSum(base: Baseline, cs: seq<Config>, k: nat)
    requires k < |cs|
    ensures BaseRate(base, cs[k]) <= SumRate(base, cs)
  {
    if k > 0 {
      RateBelowSum(base, cs[1..], k - 1);
    }
  }

  lemma {:induction false} SumRateAppend(base: Baseline, cs: seq<Config>, c: Config)
    ensures SumRate(base, cs + [c]) == SumRate(base, cs) + BaseRate(base, c)
  {
    if cs != [] {
      SumRateAppend(base, cs[1..], c);
      assert (cs + [c])[1..] == cs[1..] + [c];
    } else {
      assert (cs + [c])[1..] == [];
    }
  }

  /** What a loop over the records adds in one iteration. */
  lemma PrefixStep(base: Baseline, cs: seq<Config>, i: nat)
    requires i < |cs|
    ensures SumRate(base, cs[..i + 1]) == SumRate(base, cs[..i]) + BaseRate(base, cs[i])
    ensures BaseMap(base, cs[..i + 1]) == BaseMap(base, cs[..i])[cs[i].observer := BaseRate(base, cs[i])]
  {
    assert cs[..i + 1] == cs[..i] + [cs[i]];
    assert cs[..i + 1][..i] == cs[..i];
    SumRateAppend(base, cs[..i], cs[i]);
  }

  lemma {:induction false} BaseMapAt(base: Baseline, cs: seq<Config>, k: nat)
    requires UniqueObservers(cs) && k < |cs|
    ensures BaseMap(base, cs)[cs[k].observer] == BaseRate(base, cs[k])
  {
    if k < |cs| - 1 {
      BaseMapAt(base, cs[..|cs| - 1], k);
    }
  }

  lemma {:induction false} TotalOfRates(base: Baseline, cs: seq<Config>, alloc: Allocation)
    requires Covers(cs, alloc)
    requires forall k :: 0 <= k < |cs| ==> alloc[cs[k].observer] == BaseRate(base, cs[k])
    ensures Total(cs, alloc) == SumRate(base, cs)
  {
    if cs != [] {
      TotalOfRates(base, cs[1..], alloc);
    }
  }

  lemma BaseMapMeaning(base: Baseline, cs: seq<Config>)
    requires UniqueObservers(cs)
    ensures forall k :: 0 <= k < |cs| ==> BaseMap(base, cs)[cs[k].observer] == BaseRate(base, cs[k])
    ensures Total(cs, BaseMap(base, cs)) == SumRate(base, cs)
  {
    forall k | 0 <= k < |cs| ensures BaseMap(base, cs)[cs[k].observer] == BaseRate(base, cs[k]) {
      BaseMapAt(base, cs, k);
    }
    TotalOfRates(base, cs, BaseMap(base, cs));
  }

  lemma PairSums(cs: seq<Config>, base: Baseline)
    requires |cs| == 2
    ensures SumRate(base, cs) == BaseRate(base, cs[0]) + BaseRate(base, cs[1])
  {
    assert cs[1..] == [cs[1]] && [cs[1]][1..] == [];
    assert SumRate(base, [cs[1]]) == BaseRate(base, cs[1]);
  }

  lemma PairTotal(cs: seq<Config>, alloc: Allocation)
    requires |cs| == 2 && Covers(cs, alloc)
    ensures Total(cs, alloc) == alloc[cs[0].observer] + alloc[cs[1].observer]
  {
    assert cs[1..] == [cs[1]] && [cs[1]][1..] == [];
    assert Total([cs[1]], alloc) == alloc[cs[1].observer];
  }
}
