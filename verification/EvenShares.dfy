/** The arithmetic of the even-share loop, free of observers and maps.

    The loop visits a list of headrooms once. With n entries left it offers
    `remaining / n` to the next one, which takes no more than its headroom; what
    it does not take is carried over to the entries after it.
 */
module EvenShares {

  function Min(a: int, b: int): int { if a <= b then a else b }

  function Max(a: int, b: int): int { if a <= b then b else a }

  function Sum(s: seq<int>): int {
    if s == [] then 0 else s[0] + Sum(s[1..])
  }

  /** What an entry with headroom `h` takes when `n` entries are still waiting. */
  function Take(remaining: int, n: nat, h: int): int
    requires n > 0
  {
    Min(remaining / n, h)
  }

  /** What each entry receives, in visiting order. */
  function Extras(hs: seq<int>, remaining: int): (extras: seq<int>)
    ensures |extras| == |hs|
  {
    if hs == [] then []
    else
      var taken := Take(remaining, |hs|, hs[0]);
      [taken] + Extras(hs[1..], remaining - taken)
  }

  /** What is still to be handed out when entry `k` is reached. */
  function Remaining(hs: seq<int>, remaining: int, k: nat): int
    requires k <= |hs|
  {
    if k == 0 then remaining
    else Remaining(hs[1..], remaining - Take(remaining, |hs|, hs[0]), k - 1)
  }

  predicate NonNegative(hs: seq<int>) {
    forall i :: 0 <= i < |hs| ==> hs[i] >= 0
  }

  predicate Ascending(hs: seq<int>) {
    forall i, j :: 0 <= i < j < |hs| ==> hs[i] <= hs[j]
  }

  /** Every headroom is at most the average of the headrooms from it onwards. */
  predicate BelowSuffixAverage(hs: seq<int>) {
    hs == [] || (|hs| * hs[0] <= Sum(hs) && BelowSuffixAverage(hs[1..]))
  }

  // ---------- division by a symbolic count ----------

  lemma ProductOrder(n: nat, x: int, y: int)
    ensures x <= y ==> n * x <= n * y
    ensures n * x < n * y ==> x < y
  {
    if x <= y {
      assert n * (y - x) >= 0;
    }
  }

  lemma OneMore(m: int, x: int)
    ensures (m + 1) * x == m * x + x
  {
  }

  lemma QuotientBounds(a: int, n: nat)
    requires n > 0
    ensures n * (a / n) <= a < n * (a / n + 1)
  {
    assert a == n * (a / n) + a % n;
  }

  lemma QuotientAtLeast(a: int, n: nat, q: int)
    requires n > 0 && n * q <= a
    ensures q <= a / n
  {
    QuotientBounds(a, n);
    ProductOrder(n, q, a / n + 1);
  }

  lemma QuotientBelow(a: int, n: nat, q: int)
    requires n > 0 && a < n * q
    ensures a / n < q
  {
    QuotientBounds(a, n);
    ProductOrder(n, a / n, q);
  }

  lemma QuotientMonotone(a: int, b: int, n: nat)
    requires n > 0 && a <= b
    ensures a / n <= b / n
    ensures a - a / n <= b - b / n
  {
    var p, d := a / n, b - a;
    QuotientBounds(a, n);
    QuotientAtLeast(b, n, p);
    assert n * (p + d + 1) == n * (p + 1) + n * d;
    ProductOrder(d, 1, n);
    QuotientBelow(b, n, p + d + 1);
  }

  lemma ShareBounds(a: nat, n: nat)
    requires n > 0
    ensures 0 <= a / n <= a
  {
    QuotientMonotone(0, a, n);
    ProductOrder(a, 1, n);
    QuotientBounds(a, n);
    ProductOrder(n, a / n, a + 1);
  }

  /** One more entry served: the rest can still be offered at least as much. */
  lemma ShareNeverShrinks(remaining: int, n: nat, h: int)
    requires n > 1
    ensures (remaining - Take(remaining, n, h)) / (n - 1) >= remaining / n
  {
    var q := remaining / n;
    QuotientBounds(remaining, n);
    OneMore(n - 1, q);
    QuotientAtLeast(remaining - Take(remaining, n, h), n - 1, q);
  }

  // ---------- sums ----------

  lemma {:induction false} SumPointwise(xs: seq<int>, ys: seq<int>)
    requires |xs| == |ys|
    requires forall i :: 0 <= i < |xs| ==> xs[i] <= ys[i]
    ensures Sum(xs) <= Sum(ys)
    ensures Sum(xs) == Sum(ys) ==> xs == ys
  {
    if xs != [] {
      SumPointwise(xs[1..], ys[1..]);
      if Sum(xs) == Sum(ys) {
        assert xs == [xs[0]] + xs[1..] && ys == [ys[0]] + ys[1..];
      }
    }
  }

  lemma {:induction false} SumAtLeast(hs: seq<int>, low: int)
    requires forall i :: 0 <= i < |hs| ==> low <= hs[i]
    ensures |hs| * low <= Sum(hs)
  {
    if hs != [] {
      SumAtLeast(hs[1..], low);
      OneMore(|hs| - 1, low);
    }
  }

  // ---------- facts about the loop ----------

  lemma {:induction false} ExtrasAt(hs: seq<int>, remaining: int, k: nat)
    requires k < |hs|
    ensures Extras(hs, remaining)[k] == Take(Remaining(hs, remaining, k), |hs| - k, hs[k])
  {
    if k > 0 {
      ExtrasAt(hs[1..], remaining - Take(remaining, |hs|, hs[0]), k - 1);
    }
  }

  /** Conservation: nothing is created or lost; what is not taken is left. */
  lemma {:induction false} Conservation(hs: seq<int>, remaining: int)
    ensures Sum(Extras(hs, remaining)) + Remaining(hs, remaining, |hs|) == remaining
    ensures remaining >= 0 ==> 0 <= Remaining(hs, remaining, |hs|)
  {
    if hs != [] {
      var taken := Take(remaining, |hs|, hs[0]);
      QuotientBounds(remaining, |hs|);
      if remaining >= 0 {
        QuotientMonotone(0, remaining, |hs|);
      }
      Conservation(hs[1..], remaining - taken);
      assert Extras(hs, remaining)[1..] == Extras(hs[1..], remaining - taken);
    }
  }

  /** Nobody gets more than its headroom, nor less than the first offer allows. */
  lemma {:induction false} ExtrasBounds(hs: seq<int>, remaining: int, k: nat)
    requires k < |hs|
    ensures Min(remaining / |hs|, hs[k]) <= Extras(hs, remaining)[k] <= hs[k]
  {
    if k > 0 {
      ShareNeverShrinks(remaining, |hs|, hs[0]);
      ExtrasBounds(hs[1..], remaining - Take(remaining, |hs|, hs[0]), k - 1);
    }
  }

  /** The loop never reaches an entry with nothing left to hand out. */
  lemma {:induction false} RemainingPositive(hs: seq<int>, remaining: int, k: nat)
    requires remaining > 0 && k < |hs|
    ensures Remaining(hs, remaining, k) > 0
  {
    if k > 0 {
      ProductOrder(remaining, 2, |hs|);
      QuotientBelow(remaining, |hs|, remaining);
      RemainingPositive(hs[1..], remaining - Take(remaining, |hs|, hs[0]), k - 1);
    }
  }

  /** More to hand out is never worse for anyone. */
  lemma {:induction false} ExtrasMonotone(hs: seq<int>, a: int, b: int, k: nat)
    requires a <= b && k < |hs|
    ensures Extras(hs, a)[k] <= Extras(hs, b)[k]
  {
    QuotientMonotone(a, b, |hs|);
    if k > 0 {
      ExtrasMonotone(hs[1..], a - Take(a, |hs|, hs[0]), b - Take(b, |hs|, hs[0]), k - 1);
    }
  }

  // ---------- when everything is handed out ----------

  lemma {:induction false} AscendingBelowSuffixAverage(hs: seq<int>)
    requires Ascending(hs)
    ensures BelowSuffixAverage(hs)
  {
    if hs != [] {
      SumAtLeast(hs, hs[0]);
      AscendingBelowSuffixAverage(hs[1..]);
    }
  }

  lemma OfferFits(n: nat, q: int, h: int, remaining: int, room: int)
    requires n > 0 && q < h && remaining < n * (q + 1) && n * h <= room
    ensures remaining - q <= room - h
  {
    OneMore(n - 1, q + 1);
    OneMore(n - 1, h);
    ProductOrder(n - 1, q + 1, h);
  }

  /** One visit keeps the rest able to absorb what remains. */
  lemma StepFits(hs: seq<int>, remaining: int)
    requires hs != [] && |hs| * hs[0] <= Sum(hs) && 0 <= remaining <= Sum(hs)
    ensures remaining - Take(remaining, |hs|, hs[0]) <= Sum(hs[1..])
  {
    QuotientBounds(remaining, |hs|);
    if remaining / |hs| < hs[0] {
      OfferFits(|hs|, remaining / |hs|, hs[0], remaining, Sum(hs));
    }
  }

  lemma {:induction false} HandsOutAll(hs: seq<int>, remaining: int)
    requires BelowSuffixAverage(hs) && 0 <= remaining <= Sum(hs)
    ensures Sum(Extras(hs, remaining)) == remaining
  {
    if hs != [] {
      var taken := Take(remaining, |hs|, hs[0]);
      StepFits(hs, remaining);
      QuotientBounds(remaining, |hs|);
      QuotientMonotone(0, remaining, |hs|);
      HandsOutAll(hs[1..], remaining - taken);
      assert Extras(hs, remaining)[1..] == Extras(hs[1..], remaining - taken);
    }
  }

  lemma {:induction false} FillsUp(hs: seq<int>, remaining: int)
    requires BelowSuffixAverage(hs) && Sum(hs) <= remaining
    ensures Extras(hs, remaining) == hs
  {
    if hs != [] {
      QuotientAtLeast(remaining, |hs|, hs[0]);
      FillsUp(hs[1..], remaining - hs[0]);
    }
  }

  /** Only lists below their suffix averages can be filled up exactly. */
  lemma {:induction false} FilledUpBelowSuffixAverage(hs: seq<int>)
    requires Extras(hs, Sum(hs)) == hs
    ensures BelowSuffixAverage(hs)
  {
    if hs != [] {
      assert Extras(hs, Sum(hs))[0] == hs[0];
      QuotientBounds(Sum(hs), |hs|);
      assert |hs| * hs[0] <= |hs| * (Sum(hs) / |hs|);
      assert Extras(hs, Sum(hs))[1..] == Extras(hs[1..], Sum(hs) - hs[0]);
      FilledUpBelowSuffixAverage(hs[1..]);
    }
  }

  /** Every amount that fits the headrooms is handed out completely. */
  ghost predicate Lossless(hs: seq<int>) {
    forall r :: 0 <= r <= Sum(hs) ==> Sum(Extras(hs, r)) == r
  }

  lemma FullSplitBelowSuffixAverage(hs: seq<int>)
    requires Sum(Extras(hs, Sum(hs))) == Sum(hs)
    ensures BelowSuffixAverage(hs)
  {
    var full := Sum(hs);
    forall k | 0 <= k < |hs| ensures Extras(hs, full)[k] <= hs[k] {
      ExtrasBounds(hs, full, k);
    }
    SumPointwise(Extras(hs, full), hs);
    FilledUpBelowSuffixAverage(hs);
  }

  /** The exact condition for a lossless split. */
  lemma LosslessIff(hs: seq<int>)
    requires Sum(hs) >= 0
    ensures Lossless(hs) <==> BelowSuffixAverage(hs)
  {
    if BelowSuffixAverage(hs) {
      forall r | 0 <= r <= Sum(hs) ensures Sum(Extras(hs, r)) == r {
        HandsOutAll(hs, r);
      }
    }
    if Lossless(hs) {
      assert Sum(Extras(hs, Sum(hs))) == Sum(hs);
      FullSplitBelowSuffixAverage(hs);
    }
  }

  // ---------- the water level ----------

  /** The first offer that is not taken in full, or the last offer of all. */
  function Level(hs: seq<int>, remaining: int): int
    requires hs != []
  {
    if |hs| == 1 || remaining / |hs| < hs[0] then remaining / |hs|
    else Level(hs[1..], remaining - hs[0])
  }

  lemma {:induction false} LevelAtLeast(hs: seq<int>, remaining: int)
    requires hs != []
    ensures remaining / |hs| <= Level(hs, remaining)
  {
    if !(|hs| == 1 || remaining / |hs| < hs[0]) {
      ShareNeverShrinks(remaining, |hs|, hs[0]);
      LevelAtLeast(hs[1..], remaining - hs[0]);
    }
  }

  /** Once offers sit between `q` and `q + 1` they stay there. */
  lemma {:induction false} OffersStayLevel(hs: seq<int>, remaining: int, q: int, k: nat)
    requires k < |hs|
    requires forall i :: 0 <= i < |hs| ==> q < hs[i]
    requires |hs| * q <= remaining <= |hs| * (q + 1)
    ensures q <= Extras(hs, remaining)[k] <= q + 1
  {
    var n := |hs|;
    QuotientBounds(remaining, n);
    QuotientAtLeast(remaining, n, q);
    OneMore(q + 1, n);
    QuotientBelow(remaining, n, q + 2);
    if k > 0 {
      var p := remaining / n;
      OneMore(n - 1, q);
      OneMore(n - 1, q + 1);
      OffersStayLevel(hs[1..], remaining - p, q, k - 1);
    }
  }

  /** Every entry is filled up to the common level, to within one unit. */
  lemma {:induction false} WaterLevel(hs: seq<int>, remaining: int, k: nat)
    requires k < |hs| && Ascending(hs)
    ensures Min(hs[k], Level(hs, remaining)) <= Extras(hs, remaining)[k]
    ensures Extras(hs, remaining)[k] <= Min(hs[k], Level(hs, remaining) + 1)
  {
    var n, q := |hs|, remaining / |hs|;
    QuotientBounds(remaining, n);
    ExtrasBounds(hs, remaining, k);
    if q < hs[0] {
      assert n * (q + 1) == n * q + n;
      OffersStayLevel(hs, remaining, q, k);
    } else if k == 0 {
      LevelAtLeast(hs, remaining);
    } else {
      WaterLevel(hs[1..], remaining - hs[0], k - 1);
    }
  }

  /** After the first entry left below its headroom, shares differ by at most one. */
  lemma {:induction false} EvenAfterFirstUnfilled(hs: seq<int>, remaining: int, k: nat, j: nat)
    requires k < j < |hs| && Ascending(hs)
    requires Extras(hs, remaining)[k] < hs[k]
    ensures Extras(hs, remaining)[k] <= Extras(hs, remaining)[j] <= Extras(hs, remaining)[k] + 1
  {
    var n, q := |hs|, remaining / |hs|;
    if k > 0 {
      EvenAfterFirstUnfilled(hs[1..], remaining - Take(remaining, n, hs[0]), k - 1, j - 1);
    } else {
      QuotientBounds(remaining, n);
      assert n * (q + 1) == n * q + n;
      OffersStayLevel(hs, remaining, q, j);
    }
  }
}
