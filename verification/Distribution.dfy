/** DistributeBitrateEvenly: order the participants by maximum bitrate and hand
    out even shares, carrying over what a participant cannot use.
 */
module Distribution {
  import opened EvenShares
  import opened Observers

  /** Insertion into a multimap keyed by maximum bitrate: after equal keys. */
  function Insert(c: Config, order: seq<Config>): seq<Config> {
    if order == [] then [c]
    else if c.maxBitrate < order[0].maxBitrate then [c] + order
    else [order[0]] + Insert(c, order[1..])
  }

  /** The participants, by maximum bitrate and then in order of registration. */
  function Order(cs: seq<Config>, includeZero: bool, alloc: Allocation): (order: seq<Config>)
    requires Covers(cs, alloc)
    ensures Covers(order, alloc)
  {
    if cs == [] then []
    else
      var rest, c := Order(cs[..|cs| - 1], includeZero, alloc), cs[|cs| - 1];
      InsertTotal(c, rest, alloc);
      if includeZero || alloc[c.observer] != 0 then Insert(c, rest) else rest
  }

  /** One iteration: the rate of an observer that had `had` and may have `cap`, with `n`
      observers waiting, and what is left for the others. */
  function Visit(bitrate: int, n: nat, had: int, cap: int): (int, int)
    requires n > 0
  {
    var extra := bitrate / n;
    var total := extra + had;
    if total > cap then (cap, bitrate - extra + (total - cap)) else (total, bitrate - extra)
  }

  /** The loop over the ordered participants. */
  function Spread(order: seq<Config>, bitrate: int, multiplier: nat, alloc: Allocation): Allocation
    requires Covers(order, alloc)
    decreases |order|
  {
    if order == [] then alloc
    else
      var c := order[0];
      var (rate, left) := Visit(bitrate, |order|, alloc[c.observer], multiplier * c.maxBitrate);
      Spread(order[1..], left, multiplier, alloc[c.observer := rate])
  }

  function Distribute(
    cs: seq<Config>, bitrate: int, includeZero: bool, multiplier: nat, alloc: Allocation): Allocation
    requires Covers(cs, alloc)
  {
    Spread(Order(cs, includeZero, alloc), bitrate, multiplier, alloc)
  }

  // ---------- the order ----------

  ghost predicate SortedByMax(order: seq<Config>) {
    forall i, j :: 0 <= i < j < |order| ==> order[i].maxBitrate <= order[j].maxBitrate
  }

  lemma {:induction false} InsertMembers(c: Config, order: seq<Config>)
    ensures |Insert(c, order)| == |order| + 1
    ensures forall x :: x in Insert(c, order) <==> x == c || x in order
  {
    if order != [] && !(c.maxBitrate < order[0].maxBitrate) {
      InsertMembers(c, order[1..]);
      assert order == [order[0]] + order[1..];
    }
  }

  lemma {:induction false} InsertSorted(c: Config, order: seq<Config>)
    requires SortedByMax(order)
    ensures SortedByMax(Insert(c, order))
  {
    if order != [] && !(c.maxBitrate < order[0].maxBitrate) {
      InsertSorted(c, order[1..]);
      InsertMembers(c, order[1..]);
      var rest := Insert(c, order[1..]);
      forall j | 0 <= j < |rest| ensures order[0].maxBitrate <= rest[j].maxBitrate {
        assert rest[j] in rest;
      }
    }
  }

  lemma {:induction false} InsertUnique(c: Config, order: seq<Config>)
    requires UniqueObservers(order)
    requires forall x :: x in order ==> x.observer != c.observer
    ensures UniqueObservers(Insert(c, order))
  {
    if order != [] && !(c.maxBitrate < order[0].maxBitrate) {
      InsertUnique(c, order[1..]);
      InsertMembers(c, order[1..]);
      var rest := Insert(c, order[1..]);
      forall j | 0 <= j < |rest| ensures order[0].observer != rest[j].observer {
        assert rest[j] in rest;
      }
    }
  }

  lemma {:induction false} InsertTotal(c: Config, order: seq<Config>, alloc: Allocation)
    requires Covers(order, alloc) && c.observer in alloc
    ensures Covers(Insert(c, order), alloc)
    ensures Total(Insert(c, order), alloc) == alloc[c.observer] + Total(order, alloc)
  {
    if order != [] && !(c.maxBitrate < order[0].maxBitrate) {
      InsertTotal(c, order[1..], alloc);
    }
  }

  /** Exactly the participants are visited. */
  lemma {:induction false} OrderMembers(cs: seq<Config>, includeZero: bool, alloc: Allocation)
    requires Covers(cs, alloc)
    ensures forall x :: x in Order(cs, includeZero, alloc) <==>
                        x in cs && (includeZero || alloc[x.observer] != 0)
    ensures |Order(cs, includeZero, alloc)| <= |cs|
    ensures includeZero ==> |Order(cs, includeZero, alloc)| == |cs|
  {
    if cs != [] {
      var init, c := cs[..|cs| - 1], cs[|cs| - 1];
      OrderMembers(init, includeZero, alloc);
      InsertMembers(c, Order(init, includeZero, alloc));
      assert cs == init + [c];
    }
  }

  /** The visiting order is by maximum bitrate, each observer once. */
  lemma {:induction false} OrderSorted(cs: seq<Config>, includeZero: bool, alloc: Allocation)
    requires Covers(cs, alloc) && UniqueObservers(cs)
    ensures SortedByMax(Order(cs, includeZero, alloc))
    ensures UniqueObservers(Order(cs, includeZero, alloc))
  {
    if cs != [] {
      var init, c := cs[..|cs| - 1], cs[|cs| - 1];
      OrderSorted(init, includeZero, alloc);
      OrderMembers(init, includeZero, alloc);
      InsertSorted(c, Order(init, includeZero, alloc));
      InsertUnique(c, Order(init, includeZero, alloc));
    }
  }

  /** `x` was registered before `y`. */
  ghost predicate RegisteredBefore(cs: seq<Config>, x: Config, y: Config) {
    exists i, j :: 0 <= i < j < |cs| && cs[i] == x && cs[j] == y
  }

  /** By maximum bitrate, ties in order of registration: with the participants given, this
      leaves one order only. */
  ghost predicate Stable(order: seq<Config>, cs: seq<Config>) {
    forall p, q :: 0 <= p < q < |order| ==>
                     || order[p].maxBitrate < order[q].maxBitrate
                     || (order[p].maxBitrate == order[q].maxBitrate && RegisteredBefore(cs, order[p], order[q]))
  }

  lemma {:induction false} InsertStable(c: Config, order: seq<Config>, cs: seq<Config>)
    requires Stable(order, cs) && forall x :: x in order ==> RegisteredBefore(cs, x, c)
    ensures Stable(Insert(c, order), cs)
  {
    if order != [] {
      assert order == [order[0]] + order[1..];
      if !(c.maxBitrate < order[0].maxBitrate) {
        InsertStable(c, order[1..], cs);
        InsertMembers(c, order[1..]);
        var rest := Insert(c, order[1..]);
        forall q | 0 <= q < |rest|
          ensures || order[0].maxBitrate < rest[q].maxBitrate
                  || (order[0].maxBitrate == rest[q].maxBitrate && RegisteredBefore(cs, order[0], rest[q]))
        {
          assert rest[q] in rest;
          if rest[q] != c {
            var k :| 0 <= k < |order[1..]| && order[1..][k] == rest[q];
            assert order[k + 1] == rest[q];
          }
        }
      }
    }
  }

  lemma {:induction false} OrderStable(cs: seq<Config>, includeZero: bool, alloc: Allocation)
    requires Covers(cs, alloc)
    ensures Stable(Order(cs, includeZero, alloc), cs)
  {
    if cs != [] {
      var init, c := cs[..|cs| - 1], cs[|cs| - 1];
      var rest := Order(init, includeZero, alloc);
      OrderStable(init, includeZero, alloc);
      OrderMembers(init, includeZero, alloc);
      forall x, y | RegisteredBefore(init, x, y) ensures RegisteredBefore(cs, x, y) {
        var i, j :| 0 <= i < j < |init| && init[i] == x && init[j] == y;
        assert cs[i] == x && cs[j] == y;
      }
      forall x | x in rest ensures RegisteredBefore(cs, x, c) {
        var i :| 0 <= i < |init| && init[i] == x;
        assert cs[i] == x && cs[|cs| - 1] == c;
      }
      InsertStable(c, rest, cs);
    }
  }

  /** Any amount that is zero for the ones left out adds up the same either way. */
  lemma {:induction false} OrderTotal(
    cs: seq<Config>, includeZero: bool, alloc: Allocation, amounts: Allocation)
    requires Covers(cs, alloc) && Covers(cs, amounts)
    requires forall i :: 0 <= i < |cs| && !includeZero && alloc[cs[i].observer] == 0 ==>
                           amounts[cs[i].observer] == 0
    ensures Covers(Order(cs, includeZero, alloc), amounts)
    ensures Total(Order(cs, includeZero, alloc), amounts) == Total(cs, amounts)
  {
    if cs != [] {
      var init, c := cs[..|cs| - 1], cs[|cs| - 1];
      OrderTotal(init, includeZero, alloc, amounts);
      InsertTotal(c, Order(init, includeZero, alloc), amounts);
      TotalAppend(init, c, amounts);
      assert cs == init + [c];
    }
  }

  // ---------- the loop in terms of headrooms ----------

  function Headrooms(order: seq<Config>, multiplier: nat, alloc: Allocation): (hs: seq<int>)
    requires Covers(order, alloc)
    ensures |hs| == |order|
    ensures forall i :: 0 <= i < |order| ==>
                          hs[i] == multiplier * order[i].maxBitrate - alloc[order[i].observer]
  {
    seq(|order|, i requires 0 <= i < |order| => multiplier * order[i].maxBitrate - alloc[order[i].observer])
  }

  /** One iteration, whether capped or not, hands out what `Take` says. */
  lemma SpreadStep(order: seq<Config>, bitrate: int, multiplier: nat, alloc: Allocation)
    requires Covers(order, alloc) && UniqueObservers(order) && order != []
    ensures var hs := Headrooms(order, multiplier, alloc);
            var taken := Take(bitrate, |order|, hs[0]);
            var next := alloc[order[0].observer := alloc[order[0].observer] + taken];
            && Covers(order[1..], next)
            && Spread(order, bitrate, multiplier, alloc) == Spread(order[1..], bitrate - taken, multiplier, next)
            && hs[1..] == Headrooms(order[1..], multiplier, next)
  {
    var hs := Headrooms(order, multiplier, alloc);
    var taken := Take(bitrate, |order|, hs[0]);
    var next := alloc[order[0].observer := alloc[order[0].observer] + taken];
    forall i | 0 <= i < |hs[1..]| ensures hs[1..][i] == Headrooms(order[1..], multiplier, next)[i] {
      assert order[1..][i] == order[i + 1];
    }
  }

  /** The observers of `order` are not `id`. */
  ghost predicate Outside(order: seq<Config>, id: ObserverId) {
    forall k :: 0 <= k < |order| ==> order[k].observer != id
  }

  lemma {:induction false} SpreadOutside(
    order: seq<Config>, bitrate: int, multiplier: nat, alloc: Allocation, id: ObserverId)
    requires Covers(order, alloc) && Outside(order, id)
    ensures Spread(order, bitrate, multiplier, alloc).Keys == alloc.Keys
    ensures id in alloc ==> Spread(order, bitrate, multiplier, alloc)[id] == alloc[id]
    decreases |order|
  {
    if order != [] {
      var c := order[0];
      var (rate, left) := Visit(bitrate, |order|, alloc[c.observer], multiplier * c.maxBitrate);
      var next := alloc[c.observer := rate];
      assert next.Keys == alloc.Keys;
      SpreadOutside(order[1..], left, multiplier, next, id);
    }
  }

  lemma {:induction false} SpreadAt(order: seq<Config>, bitrate: int, multiplier: nat, alloc: Allocation, k: nat)
    requires Covers(order, alloc) && UniqueObservers(order) && k < |order|
    ensures Spread(order, bitrate, multiplier, alloc).Keys == alloc.Keys
    ensures Spread(order, bitrate, multiplier, alloc)[order[k].observer]
         == alloc[order[k].observer] + Extras(Headrooms(order, multiplier, alloc), bitrate)[k]
    decreases |order|
  {
    var hs := Headrooms(order, multiplier, alloc);
    var taken := Take(bitrate, |order|, hs[0]);
    var next := alloc[order[0].observer := alloc[order[0].observer] + taken];
    assert next.Keys == alloc.Keys;
    SpreadStep(order, bitrate, multiplier, alloc);
    if k == 0 {
      SpreadOutside(order[1..], bitrate - taken, multiplier, next, order[0].observer);
    } else {
      SpreadAt(order[1..], bitrate - taken, multiplier, next, k - 1);
    }
  }

  /** The map-updating loop adds to each participant its even share, and changes no other. */
  lemma SpreadMeaning(order: seq<Config>, bitrate: int, multiplier: nat, alloc: Allocation)
    requires Covers(order, alloc) && UniqueObservers(order)
    ensures var after := Spread(order, bitrate, multiplier, alloc);
            var extras := Extras(Headrooms(order, multiplier, alloc), bitrate);
            && after.Keys == alloc.Keys
            && (forall k :: 0 <= k < |order| ==>
                 after[order[k].observer] == alloc[order[k].observer] + extras[k])
            && (forall id :: id in alloc && Outside(order, id) ==> after[id] == alloc[id])
  {
    var after := Spread(order, bitrate, multiplier, alloc);
    var extras := Extras(Headrooms(order, multiplier, alloc), bitrate);
    if order != [] {
      SpreadAt(order, bitrate, multiplier, alloc, 0);
    }
    forall k | 0 <= k < |order| ensures after[order[k].observer] == alloc[order[k].observer] + extras[k] {
      SpreadAt(order, bitrate, multiplier, alloc, k);
    }
    forall id | id in alloc && Outside(order, id) ensures after[id] == alloc[id] {
      SpreadOutside(order, bitrate, multiplier, alloc, id);
    }
  }

  lemma {:induction false} TotalWithExtras(order: seq<Config>, a: Allocation, b: Allocation, extras: seq<int>)
    requires Covers(order, a) && Covers(order, b) && |extras| == |order|
    requires forall k :: 0 <= k < |order| ==> b[order[k].observer] == a[order[k].observer] + extras[k]
    ensures Total(order, b) == Total(order, a) + Sum(extras)
  {
    if order != [] {
      TotalWithExtras(order[1..], a, b, extras[1..]);
    }
  }

  /** The position of a participant in the visiting order. */
  lemma ParticipantPosition(cs: seq<Config>, i: nat, includeZero: bool, alloc: Allocation) returns (k: nat)
    requires Covers(cs, alloc) && i < |cs|
    requires includeZero || alloc[cs[i].observer] != 0
    ensures k < |Order(cs, includeZero, alloc)| && Order(cs, includeZero, alloc)[k] == cs[i]
  {
    OrderMembers(cs, includeZero, alloc);
    assert cs[i] in Order(cs, includeZero, alloc);
    k :| 0 <= k < |Order(cs, includeZero, alloc)| && Order(cs, includeZero, alloc)[k] == cs[i];
  }

  // ---------- what the distribution guarantees ----------

  /** A participant gains exactly its even share. */
  lemma DistributeExtra(
    cs: seq<Config>, bitrate: int, includeZero: bool, multiplier: nat, alloc: Allocation, i: nat)
    returns (k: nat)
    requires Covers(cs, alloc) && UniqueObservers(cs) && i < |cs|
    requires includeZero || alloc[cs[i].observer] != 0
    ensures var order := Order(cs, includeZero, alloc);
            var after := Distribute(cs, bitrate, includeZero, multiplier, alloc);
            && k < |order| && order[k] == cs[i]
            && after.Keys == alloc.Keys
            && after[cs[i].observer]
               == alloc[cs[i].observer] + Extras(Headrooms(order, multiplier, alloc), bitrate)[k]
  {
    OrderSorted(cs, includeZero, alloc);
    SpreadMeaning(Order(cs, includeZero, alloc), bitrate, multiplier, alloc);
    k := ParticipantPosition(cs, i, includeZero, alloc);
  }

  /** A participant gains its even share, capped; everybody else keeps what it has. */
  lemma DistributeAt(
    cs: seq<Config>, bitrate: int, includeZero: bool, multiplier: nat, alloc: Allocation, i: nat)
    requires Covers(cs, alloc) && UniqueObservers(cs) && i < |cs|
    ensures var after := Distribute(cs, bitrate, includeZero, multiplier, alloc);
            var had, cap := alloc[cs[i].observer], multiplier * cs[i].maxBitrate;
            && after.Keys == alloc.Keys
            && (!includeZero && had == 0 ==> after[cs[i].observer] == 0)
            && (includeZero || had != 0 ==>
                 && after[cs[i].observer] <= cap
                 && |Order(cs, includeZero, alloc)| > 0
                 && after[cs[i].observer] >= Min(had + bitrate / |Order(cs, includeZero, alloc)|, cap))
  {
    var order := Order(cs, includeZero, alloc);
    if includeZero || alloc[cs[i].observer] != 0 {
      var k := DistributeExtra(cs, bitrate, includeZero, multiplier, alloc, i);
      ExtrasBounds(Headrooms(order, multiplier, alloc), bitrate, k);
    } else {
      OrderMembers(cs, includeZero, alloc);
      OrderSorted(cs, includeZero, alloc);
      SpreadMeaning(order, bitrate, multiplier, alloc);
      forall k | 0 <= k < |order| ensures order[k].observer != cs[i].observer {
        assert order[k] in order;
      }
      assert Outside(order, cs[i].observer);
    }
  }

  /** Handing out adds no more than was there, and the sum is exact up to what is left. */
  lemma DistributeTotal(cs: seq<Config>, bitrate: int, includeZero: bool, multiplier: nat, alloc: Allocation)
    requires Covers(cs, alloc) && UniqueObservers(cs)
    ensures var after := Distribute(cs, bitrate, includeZero, multiplier, alloc);
            var hs := Headrooms(Order(cs, includeZero, alloc), multiplier, alloc);
            && after.Keys == alloc.Keys
            && Total(cs, after) == Total(cs, alloc) + Sum(Extras(hs, bitrate))
            && (bitrate >= 0 ==> Total(cs, after) <= Total(cs, alloc) + bitrate)
  {
    var order := Order(cs, includeZero, alloc);
    var hs := Headrooms(order, multiplier, alloc);
    var after := Distribute(cs, bitrate, includeZero, multiplier, alloc);
    OrderMembers(cs, includeZero, alloc);
    OrderSorted(cs, includeZero, alloc);
    SpreadMeaning(order, bitrate, multiplier, alloc);
    TotalWithExtras(order, alloc, after, Extras(hs, bitrate));
    forall i | 0 <= i < |cs| && !includeZero && alloc[cs[i].observer] == 0
      ensures after[cs[i].observer] == 0
    {
      DistributeAt(cs, bitrate, includeZero, multiplier, alloc, i);
    }
    OrderTotal(cs, includeZero, alloc, alloc);
    OrderTotal(cs, includeZero, alloc, after);
    Conservation(hs, bitrate);
  }

  /** More to distribute over the same starting point is never worse for anyone. */
  lemma DistributeMonotone(
    cs: seq<Config>, a: int, b: int, includeZero: bool, multiplier: nat, alloc: Allocation, i: nat)
    requires Covers(cs, alloc) && UniqueObservers(cs) && i < |cs| && a <= b
    ensures cs[i].observer in Distribute(cs, a, includeZero, multiplier, alloc)
    ensures cs[i].observer in Distribute(cs, b, includeZero, multiplier, alloc)
    ensures Distribute(cs, a, includeZero, multiplier, alloc)[cs[i].observer]
         <= Distribute(cs, b, includeZero, multiplier, alloc)[cs[i].observer]
  {
    DistributeAt(cs, a, includeZero, multiplier, alloc, i);
    DistributeAt(cs, b, includeZero, multiplier, alloc, i);
    if includeZero || alloc[cs[i].observer] != 0 {
      var order := Order(cs, includeZero, alloc);
      OrderSorted(cs, includeZero, alloc);
      SpreadMeaning(order, a, multiplier, alloc);
      SpreadMeaning(order, b, multiplier, alloc);
      var k := ParticipantPosition(cs, i, includeZero, alloc);
      ExtrasMonotone(Headrooms(order, multiplier, alloc), a, b, k);
    }
  }
}
