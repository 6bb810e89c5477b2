/** What the resume margin and the order of the passes are for: while the bitrate does not
    fall, an observer with a minimum and a maximum that holds a rate is not paused again;
    and exactly such limits keep an observer from toggling at a constant bitrate.
 */
module SteadyRuns {
  import opened EvenShares
  import opened Observers
  import opened Distribution
  import opened AllocationRules
  import opened RegimeTheorems
  import opened AllocatorMachine

  // ---------- what the observers with a rate need ----------

  /** What an observer with a rate needs to keep it; an enforced minimum is counted apart. */
  function KeepingRate(c: Config): nat {
    if !c.enforceMin && c.granted > 0 then Required(c) else 0
  }

  function SumKeeping(cs: seq<Config>): nat {
    if cs == [] then 0 else KeepingRate(cs[0]) + SumKeeping(cs[1..])
  }

  /** The bitrate covers the enforced minima and what the first `k` observers need to keep
      their rates. */
  predicate Settled(cs: seq<Config>, bitrate: nat, k: nat)
    requires k <= |cs|
  {
    SumKeeping(cs[..k]) == 0 || SumEnforcedMin(cs) + SumKeeping(cs[..k]) <= bitrate
  }

  lemma SumKeepingAppend(cs: seq<Config>, k: nat)
    requires k < |cs|
    ensures SumKeeping(cs[..k + 1]) == SumKeeping(cs[..k]) + KeepingRate(cs[k])
    decreases k
  {
    if k > 0 {
      SumKeepingAppend(cs[1..], k - 1);
      assert cs[1..][..k] == cs[..k + 1][1..] && cs[1..][..k - 1] == cs[..k][1..];
    } else {
      assert cs[..1] == [cs[0]] && [cs[0]][1..] == [] && cs[..0] == [];
    }
  }

  // ---------- a settled observer keeps its rate ----------

  /** The active observers are charged no more than they need. */
  lemma {:induction false} ActiveChargesBelow(cs: seq<Config>, alloc: Allocation)
    requires Covers(cs, alloc)
    requires forall j :: 0 <= j < |cs| ==> cs[j].granted >= 0
    ensures Charges(cs, false, alloc) <= SumKeeping(cs)
  {
    if cs != [] {
      ActiveChargesBelow(cs[1..], alloc);
    }
  }

  lemma SettledIsGranted(cs: seq<Config>, bitrate: nat, i: nat)
    requires Sane(cs) && i < |cs| && Settled(cs, bitrate, i + 1)
    requires forall j :: 0 <= j <= i ==> cs[j].granted >= 0
    requires cs[i].granted > 0 && cs[i].minBitrate > 0
    ensures Covers(cs, LowGrants(cs, bitrate).alloc) && LowGrants(cs, bitrate).alloc[cs[i].observer] > 0
  {
    LowRateAdmission(cs, bitrate, i);
    SumKeepingAppend(cs, i);
    ActiveChargesBelow(cs[..i], LowGrants(cs, bitrate).alloc);
  }

  /** An observer with a minimum and a maximum that holds a rate keeps one. */
  lemma SettledKeepsRate(cs: seq<Config>, bitrate: nat, i: nat)
    requires Sane(cs) && i < |cs| && Settled(cs, bitrate, i + 1) && bitrate > 0
    requires forall j :: 0 <= j <= i ==> cs[j].granted >= 0
    requires cs[i].granted > 0 && cs[i].minBitrate > 0 && cs[i].maxBitrate > 0
    ensures cs[i].observer in Allocate(cs, bitrate) && Allocate(cs, bitrate)[cs[i].observer] > 0
  {
    if Enough(cs, bitrate) {
      EnoughServesAll(cs, bitrate, i);
    } else {
      SettledIsGranted(cs, bitrate, i);
      LowRateShares(cs, bitrate, i);
      var g := LowGrants(cs, bitrate);
      if g.remaining > 0 {
        QuotientMonotone(0, g.remaining, |Order(cs, false, g.alloc)|);
      }
    }
  }

  /** The bitrate covers what the last record requires on top of the holders before it. */
  lemma LastIsGranted(cs: seq<Config>, c: Config, bitrate: nat)
    requires Sane(cs + [c]) && !c.enforceMin && !Paused(c) && Required(c) > 0
    requires forall j :: 0 <= j < |cs| ==> cs[j].granted >= 0
    requires SumEnforcedMin(cs) + SumKeeping(cs) + Required(c) <= bitrate
    ensures Covers(cs + [c], LowGrants(cs + [c], bitrate).alloc)
    ensures LowGrants(cs + [c], bitrate).alloc[c.observer] == Required(c)
  {
    var all, n := cs + [c], |cs|;
    assert all[n] == c && all[..n] == cs;
    SumRateAppend(EnforcedOnly, cs, c);
    LowRateAdmission(all, bitrate, n);
    ActiveChargesBelow(cs, LowGrants(all, bitrate).alloc);
  }

  lemma GrantIsKept(cs: seq<Config>, bitrate: nat, i: nat)
    requires Sane(cs) && i < |cs| && Covers(cs, LowGrants(cs, bitrate).alloc)
    ensures cs[i].observer in LowRate(cs, bitrate)
    ensures LowRate(cs, bitrate)[cs[i].observer]
         >= Min(LowGrants(cs, bitrate).alloc[cs[i].observer], cs[i].maxBitrate)
  {
    LowRateShares(cs, bitrate, i);
    var g := LowGrants(cs, bitrate);
    if g.remaining > 0 && g.alloc[cs[i].observer] != 0 {
      QuotientMonotone(0, g.remaining, |Order(cs, false, g.alloc)|);
    }
  }

  /** A new observer needs its minimum alone, without the resume margin: if the bitrate covers
      that on top of the enforced minima and what the holders require, it gets a rate at
      once. */
  lemma NewObserverAdmitted(s: State, e: Event)
    requires Valid(s) && Legal(e) && s.lastBitrate > 0
    requires e.ObserverAdded? && Find(s.configs, e.observer) == |s.configs| && !e.enforceMin
    requires e.minBitrate > 0
    requires SumEnforcedMin(s.configs) + SumKeeping(s.configs) + e.minBitrate <= s.lastBitrate
    ensures e.observer in Rates(s, e) && Rates(s, e)[e.observer] >= Min(e.minBitrate, e.maxBitrate)
  {
    var c := Config(e.observer, e.minBitrate, e.maxBitrate, e.padUp, e.enforceMin, -1, 1.0);
    var cs := s.configs + [c];
    RegisterSane(s.configs, e);
    RequiredExact(c);
    assert cs[|s.configs|] == c;
    if Enough(cs, s.lastBitrate) {
      EnoughServesAll(cs, s.lastBitrate, |s.configs|);
    } else {
      LastIsGranted(s.configs, c, s.lastBitrate);
      GrantIsKept(cs, s.lastBitrate, |s.configs|);
    }
  }

  // ---------- every allocation settles the observers that answer calmly ----------

  /** The share of protection that an observer's requirement makes room for. A media ratio
      of 0, all protection, counts as none. */
  function Protection(ratio: real): (share: real)
    requires 0.0 <= ratio <= 1.0
    ensures 0.0 <= share <= 1.0
  {
    if 0.0 < ratio < 1.0 then 1.0 - ratio else 0.0
  }

  /** The observer's answer does not raise that share. */
  ghost predicate Calm(c: Config, rate: nat, reply: Reply)
    requires WellFormed(c) && Honest(reply)
  {
    rate > 0 ==> Protection(MediaRatio(rate, reply(c.observer, rate))) <= Protection(c.mediaRatio)
  }

  ghost predicate AllCalm(cs: seq<Config>, bitrate: nat, reply: Reply, k: nat)
    requires Sane(cs) && Honest(reply) && k <= |cs|
  {
    AllocateCovers(cs, bitrate);
    forall j :: 0 <= j < k ==> Calm(cs[j], Allocate(cs, bitrate)[cs[j].observer], reply)
  }

  lemma ScaledMonotone(m: nat, n: nat, a: real, b: real)
    requires m <= n && 0.0 <= a <= b <= 1.0
    ensures Scaled(m, a) <= Scaled(n, b)
  {
    assert m as real * a <= n as real * b by {
      assert m as real * (b - a) >= 0.0;
      assert (n as real - m as real) * b >= 0.0;
    }
  }

  /** After a calm answer an observer requires no more than before. */
  lemma RequiredFalls(c: Config, rate: nat, reply: Reply)
    requires WellFormed(c) && Honest(reply) && Calm(c, rate, reply) && rate > 0
    ensures Required(Told(c, rate, reply)) <= Required(c)
  {
    var after := Told(c, rate, reply);
    ScaledMonotone(ToggledMin(after), ToggledMin(c), Protection(after.mediaRatio), Protection(c.mediaRatio));
  }

  /** What an observer without an enforced minimum requires. */
  function Need(c: Config): nat { if c.enforceMin then 0 else Required(c) }

  function SumNeeds(cs: seq<Config>): nat {
    if cs == [] then 0 else Need(cs[0]) + SumNeeds(cs[1..])
  }

  lemma {:induction false} NeedsFit(cs: seq<Config>, extra: nat)
    requires forall i :: 0 <= i < |cs| ==> cs[i].minBitrate + extra >= Required(cs[i])
    ensures SumEnforcedMin(cs) + SumNeeds(cs) <= SumMin(cs) + |cs| * extra
  {
    if cs != [] {
      NeedsFit(cs[1..], extra);
      OneMore(|cs| - 1, extra);
    }
  }

  lemma EnoughCoversNeeds(cs: seq<Config>, bitrate: nat)
    requires cs != [] && Enough(cs, bitrate)
    ensures SumEnforcedMin(cs) + SumNeeds(cs) <= bitrate
  {
    var rest := bitrate - SumMin(cs);
    QuotientBounds(rest, |cs|);
    NeedsFit(cs, rest / |cs|);
  }

  lemma {:induction false} KeepingBelowNeeds(after: seq<Config>, cs: seq<Config>, k: nat)
    requires |after| == |cs| && k <= |cs|
    requires forall j :: 0 <= j < k ==> KeepingRate(after[j]) <= Need(cs[j])
    ensures SumKeeping(after[..k]) <= SumNeeds(cs)
    decreases k
  {
    if k > 0 {
      assert after[..k][1..] == after[1..][..k - 1];
      KeepingBelowNeeds(after[1..], cs[1..], k - 1);
    }
  }

  lemma {:induction false} KeepingBelowCharges(after: seq<Config>, cs: seq<Config>, k: nat, alloc: Allocation)
    requires |after| == |cs| && k <= |cs| && Covers(cs, alloc)
    requires forall j :: 0 <= j < k ==>
               KeepingRate(after[j]) <= Charge(cs[j], false, alloc) + Charge(cs[j], true, alloc)
    ensures SumKeeping(after[..k]) <= Charges(cs, false, alloc) + Charges(cs, true, alloc)
    decreases k
  {
    if k > 0 {
      assert after[..k][1..] == after[1..][..k - 1];
      KeepingBelowCharges(after[1..], cs[1..], k - 1, alloc);
    }
  }

  /** An observer that the low regime leaves with a rate was charged for what it requires. */
  lemma KeepingCharged(cs: seq<Config>, bitrate: nat, reply: Reply, j: nat)
    requires Sane(cs) && Honest(reply) && j < |cs| && bitrate > 0 && !Enough(cs, bitrate)
    requires AllCalm(cs, bitrate, reply, j + 1)
    ensures var g := LowGrants(cs, bitrate);
            && Covers(cs, g.alloc)
            && KeepingRate(Reallocate(cs, bitrate, reply)[j])
               <= Charge(cs[j], false, g.alloc) + Charge(cs[j], true, g.alloc)
  {
    AllocateCovers(cs, bitrate);
    LowGrantsMeaning(cs, bitrate);
    LowRateShares(cs, bitrate, j);
    var g, rate := LowGrants(cs, bitrate), Allocate(cs, bitrate)[cs[j].observer];
    assert Granted(cs[j], bitrate, g);
    if !cs[j].enforceMin && rate > 0 {
      assert g.alloc[cs[j].observer] == Required(cs[j]);
      RequiredFalls(cs[j], rate, reply);
    }
  }

  lemma LowRateSettles(cs: seq<Config>, bitrate: nat, reply: Reply, k: nat)
    requires Sane(cs) && Honest(reply) && k <= |cs| && cs != [] && bitrate > 0 && !Enough(cs, bitrate)
    requires AllCalm(cs, bitrate, reply, k)
    ensures Settled(Reallocate(cs, bitrate, reply), bitrate, k)
  {
    AllocateCovers(cs, bitrate);
    var g, after := LowGrants(cs, bitrate), Reallocate(cs, bitrate, reply);
    TellAllTotals(cs, Allocate(cs, bitrate), reply);
    LowRateAdmission(cs, bitrate, 0);
    forall j | 0 <= j < k
      ensures KeepingRate(after[j]) <= Charge(cs[j], false, g.alloc) + Charge(cs[j], true, g.alloc)
    {
      KeepingCharged(cs, bitrate, reply, j);
    }
    KeepingBelowCharges(after, cs, k, g.alloc);
    LowGrantsLimited(cs, bitrate);
  }

  /** The passes never charge more than there is after the enforced minima. */
  lemma LowGrantsLimited(cs: seq<Config>, bitrate: nat)
    requires Sane(cs) && cs != []
    ensures var g := LowGrants(cs, bitrate);
            && Covers(cs, g.alloc)
            && Charges(cs, false, g.alloc) + Charges(cs, true, g.alloc) <= Max(0, bitrate - SumEnforcedMin(cs))
  {
    var g1 := EnforcedGrants(cs, bitrate);
    LowRateAdmission(cs, bitrate, 0);
    AdmitIfAnyMeaning(cs, false, g1);
    AdmitIfAnyMeaning(cs, true, ActiveGrants(cs, bitrate));
  }

  lemma EnoughSettles(cs: seq<Config>, bitrate: nat, reply: Reply, k: nat)
    requires Sane(cs) && Honest(reply) && k <= |cs| && cs != [] && Enough(cs, bitrate)
    requires AllCalm(cs, bitrate, reply, k)
    ensures Settled(Reallocate(cs, bitrate, reply), bitrate, k)
  {
    AllocateCovers(cs, bitrate);
    var after := Reallocate(cs, bitrate, reply);
    TellAllTotals(cs, Allocate(cs, bitrate), reply);
    EnoughCoversNeeds(cs, bitrate);
    forall j | 0 <= j < k ensures KeepingRate(after[j]) <= Need(cs[j]) {
      if after[j].granted > 0 {
        RequiredFalls(cs[j], after[j].granted, reply);
      }
    }
    KeepingBelowNeeds(after, cs, k);
  }

  /** Whatever the state before, an allocation leaves enough for the first `k` observers to
      keep what they are told, if they answer calmly. */
  lemma AllocationSettles(cs: seq<Config>, bitrate: nat, reply: Reply, k: nat)
    requires Sane(cs) && Honest(reply) && k <= |cs| && bitrate > 0
    requires AllCalm(cs, bitrate, reply, k)
    ensures Settled(Reallocate(cs, bitrate, reply), bitrate, k)
  {
    if cs == [] {
    } else if Enough(cs, bitrate) {
      EnoughSettles(cs, bitrate, reply, k);
    } else {
      LowRateSettles(cs, bitrate, reply, k);
    }
  }

  // ---------- whole runs ----------

  /** The observer holds a rate that the bitrate covers. */
  ghost predicate Keeping(cs: seq<Config>, bitrate: nat, observer: ObserverId) {
    var k := Find(cs, observer);
    && k < |cs|
    && cs[k].granted > 0 && cs[k].minBitrate > 0 && cs[k].maxBitrate > 0
    && Settled(cs, bitrate, k + 1)
  }

  ghost predicate Steady(s: State, observer: ObserverId) {
    s.lastBitrate > 0 && Keeping(s.configs, s.lastBitrate, observer)
  }

  /** The bitrate does not fall, the observer and those registered before it answer calmly,
      any other may leave, and observers are added or updated, the observer itself included,
      so that neither the enforced minima nor what the holders up to the observer require
      are raised. */
  ghost predicate Undisturbed(s: State, e: Event, observer: ObserverId)
    requires Sane(s.configs) && Legal(e) && Find(s.configs, observer) < |s.configs|
  {
    var k := Find(s.configs, observer) + 1;
    match e
    case NetworkChanged(bitrate, reply) => s.lastBitrate <= bitrate && AllCalm(s.configs, bitrate, reply, k)
    case ObserverAdded(other, minBitrate, maxBitrate, _, _, reply) =>
      RegisterSane(s.configs, e);
      var after := Register(s.configs, e);
      && SumEnforcedMin(after) <= SumEnforcedMin(s.configs)
      && SumKeeping(after[..k]) <= SumKeeping(s.configs[..k])
      && (other == observer ==> minBitrate > 0 && maxBitrate > 0)
      && AllCalm(after, s.lastBitrate, reply, k)
    case ObserverRemoved(other) => other != observer
  }

  lemma FindUnique(cs: seq<Config>, k: nat)
    requires UniqueObservers(cs) && k < |cs|
    ensures Find(cs, cs[k].observer) == k
  {
  }

  lemma ReallocateKeeps(cs: seq<Config>, bitrate: nat, reply: Reply, observer: ObserverId)
    requires Sane(cs) && Honest(reply) && Keeping(cs, bitrate, observer) && bitrate > 0
    requires forall j :: 0 <= j <= Find(cs, observer) ==> cs[j].granted >= 0
    requires AllCalm(cs, bitrate, reply, Find(cs, observer) + 1)
    ensures Keeping(Reallocate(cs, bitrate, reply), bitrate, observer)
  {
    var i := Find(cs, observer);
    AllocateCovers(cs, bitrate);
    SettledKeepsRate(cs, bitrate, i);
    AllocationSettles(cs, bitrate, reply, i + 1);
    ReallocateSane(cs, bitrate, reply);
    FindUnique(Reallocate(cs, bitrate, reply), i);
  }

  /** Any allocation makes steady whom it gives a rate, if it and those before it answer calmly. */
  lemma NetworkMakesSteady(s: State, bitrate: nat, reply: Reply, i: nat)
    requires Valid(s) && Honest(reply) && bitrate > 0 && i < |s.configs|
    requires AllCalm(s.configs, bitrate, reply, i + 1)
    requires Reallocate(s.configs, bitrate, reply)[i].granted > 0
    requires s.configs[i].minBitrate > 0 && s.configs[i].maxBitrate > 0
    ensures Steady(Step(s, NetworkChanged(bitrate, reply)), s.configs[i].observer)
  {
    AllocateCovers(s.configs, bitrate);
    AllocationSettles(s.configs, bitrate, reply, i + 1);
    ReallocateSane(s.configs, bitrate, reply);
    FindUnique(Reallocate(s.configs, bitrate, reply), i);
  }

  lemma NetworkKeepsSteady(s: State, e: Event, observer: ObserverId)
    requires Valid(s) && Legal(e) && e.NetworkChanged? && Steady(s, observer) && Undisturbed(s, e, observer)
    ensures Steady(Step(s, e), observer)
  {
    ReallocateKeeps(s.configs, e.bitrate, e.reply, observer);
  }

  /** Where the records of a registration are, and what they hold. */
  lemma RegisterRecords(cs: seq<Config>, e: Event, observer: ObserverId)
    requires e.ObserverAdded? && UniqueObservers(cs) && Find(cs, observer) < |cs|
    ensures var after, k := Register(cs, e), Find(cs, observer);
            && Find(after, observer) == k < |after|
            && (e.observer != observer ==> after[k] == cs[k])
            && (e.observer == observer ==> after[k].minBitrate == e.minBitrate && after[k].maxBitrate == e.maxBitrate)
            && forall j :: 0 <= j <= k ==> after[j].granted == cs[j].granted
  {
    var after := Register(cs, e);
    assert forall j :: 0 <= j < |cs| ==> after[j].observer == cs[j].observer;
  }

  lemma RegisterKeeps(cs: seq<Config>, e: Event, bitrate: nat, observer: ObserverId)
    requires e.ObserverAdded? && UniqueObservers(cs) && Keeping(cs, bitrate, observer)
    requires var after, k := Register(cs, e), Find(cs, observer) + 1;
             && SumEnforcedMin(after) <= SumEnforcedMin(cs)
             && SumKeeping(after[..k]) <= SumKeeping(cs[..k])
    requires e.observer == observer ==> e.minBitrate > 0 && e.maxBitrate > 0
    ensures Keeping(Register(cs, e), bitrate, observer)
  {
    RegisterRecords(cs, e, observer);
  }

  lemma AddedKeepsSteady(s: State, e: Event, observer: ObserverId)
    requires Valid(s) && Legal(e) && e.ObserverAdded? && Steady(s, observer) && Undisturbed(s, e, observer)
    ensures Steady(Step(s, e), observer)
  {
    RegisterSane(s.configs, e);
    RegisterRecords(s.configs, e, observer);
    RegisterKeeps(s.configs, e, s.lastBitrate, observer);
    ReallocateKeeps(Register(s.configs, e), s.lastBitrate, e.reply, observer);
  }

  /** Without one of the records the prefix that ends with record `i` needs no more. */
  lemma {:induction false} SumKeepingWithout(cs: seq<Config>, k: nat, n: nat)
    requires k < |cs| && n <= |cs|
    ensures var rest := cs[..k] + cs[k + 1..];
            SumKeeping(rest[..if n > k then n - 1 else n]) <= SumKeeping(cs[..n])
    decreases |cs|
  {
    var rest := cs[..k] + cs[k + 1..];
    if n <= k {
      assert rest[..n] == cs[..n];
    } else if k == 0 {
      assert rest[..n - 1] == cs[..n][1..];
    } else {
      SumKeepingWithout(cs[1..], k - 1, n - 1);
      assert rest[1..] == cs[1..][..k - 1] + cs[1..][k..];
      assert rest[..n - 1][1..] == rest[1..][..n - 2];
      assert cs[..n][1..] == cs[1..][..n - 1];
    }
  }

  lemma RemovedKeepsSettled(cs: seq<Config>, k: nat, bitrate: nat, i: nat)
    requires k < |cs| && i < |cs| && i != k && Settled(cs, bitrate, i + 1)
    ensures Settled(cs[..k] + cs[k + 1..], bitrate, if i < k then i + 1 else i)
  {
    SumKeepingWithout(cs, k, i + 1);
    SumsWithout(cs, k);
  }

  /** The record of another observer after a removal. */
  lemma FindWithout(cs: seq<Config>, other: ObserverId, i: nat)
    requires UniqueObservers(cs) && i < |cs| && cs[i].observer != other && Find(cs, other) < |cs|
    ensures var k, after := Find(cs, other), Unregister(cs, other);
            var j := if i < k then i else i - 1;
            j < |after| && after[j] == cs[i] && Find(after, cs[i].observer) == j
  {
    var k, after := Find(cs, other), Unregister(cs, other);
    var j := if i < k then i else i - 1;
    assert after[j] == cs[i];
    forall n | 0 <= n < |after| && n != j ensures after[n].observer != cs[i].observer {
      assert after[n] == cs[if n < k then n else n + 1];
    }
  }

  lemma UnregisterKeeps(cs: seq<Config>, other: ObserverId, bitrate: nat, observer: ObserverId)
    requires UniqueObservers(cs) && Keeping(cs, bitrate, observer) && other != observer
    ensures Keeping(Unregister(cs, other), bitrate, observer)
  {
    var i, k := Find(cs, observer), Find(cs, other);
    if k < |cs| {
      FindWithout(cs, other, i);
      RemovedKeepsSettled(cs, k, bitrate, i);
    }
  }

  lemma RemovedKeepsSteady(s: State, e: Event, observer: ObserverId)
    requires Valid(s) && Legal(e) && e.ObserverRemoved? && Steady(s, observer) && Undisturbed(s, e, observer)
    ensures Steady(Step(s, e), observer)
  {
    UnregisterKeeps(s.configs, e.observer, s.lastBitrate, observer);
  }

  lemma StepKeepsSteady(s: State, e: Event, observer: ObserverId)
    requires Valid(s) && Legal(e) && Steady(s, observer) && Undisturbed(s, e, observer)
    ensures Steady(Step(s, e), observer)
  {
    match e
    case NetworkChanged(_, _) => NetworkKeepsSteady(s, e, observer);
    case ObserverAdded(_, _, _, _, _, _) => AddedKeepsSteady(s, e, observer);
    case ObserverRemoved(_) => RemovedKeepsSteady(s, e, observer);
  }

  ghost predicate UndisturbedRun(s: State, events: seq<Event>, observer: ObserverId)
    requires Valid(s) && LegalRun(events)
    decreases |events|
  {
    events == [] ||
    (&& Find(s.configs, observer) < |s.configs|
     && Undisturbed(s, events[0], observer)
     && (StepKeepsValid(s, events[0]); UndisturbedRun(Step(s, events[0]), events[1..], observer)))
  }

  /** No toggling: an observer that holds a rate holds one throughout every run in which the
      bitrate does not fall and nobody before it asks for more protection, however the others
      come and go. */
  lemma {:induction false} RunKeepsRate(s: State, events: seq<Event>, observer: ObserverId)
    requires Valid(s) && LegalRun(events) && Steady(s, observer) && UndisturbedRun(s, events, observer)
    ensures Steady(Run(s, events), observer)
    decreases |events|
  {
    if events != [] {
      StepKeepsValid(s, events[0]);
      StepKeepsSteady(s, events[0], observer);
      RunKeepsRate(Step(s, events[0]), events[1..], observer);
    }
  }

  // ---------- who never toggles ----------

  /** An observer that holds a rate but has no minimum loses it whenever there is not enough
      for all. */
  lemma NoMinimumIsPaused(cs: seq<Config>, bitrate: nat, i: nat)
    requires Sane(cs) && i < |cs| && cs[i].granted > 0 && cs[i].minBitrate == 0
    requires bitrate > 0 && !Enough(cs, bitrate)
    ensures cs[i].observer in Allocate(cs, bitrate) && Allocate(cs, bitrate)[cs[i].observer] == 0
  {
    LowRateAdmission(cs, bitrate, i);
    LowRateShares(cs, bitrate, i);
  }

  function Unprotected(): Reply { (observer, rate) => 0 }

  lemma UnprotectedIsCalm(cs: seq<Config>, bitrate: nat, k: nat)
    requires Sane(cs) && k <= |cs|
    ensures Honest(Unprotected()) && AllCalm(cs, bitrate, Unprotected(), k)
  {
    AllocateCovers(cs, bitrate);
  }

  ghost predicate HasLimits(c: Config, minBitrate: nat, maxBitrate: nat, enforceMin: bool) {
    c.minBitrate == minBitrate && c.maxBitrate == maxBitrate && c.enforceMin == enforceMin
  }

  /** The allocation gives record `i` a rate, and it and those before it answer calmly. */
  ghost predicate Given(cs: seq<Config>, bitrate: nat, reply: Reply, i: nat)
    requires Sane(cs) && Honest(reply) && i < |cs|
  {
    Reallocate(cs, bitrate, reply)[i].granted > 0 && AllCalm(cs, bitrate, reply, i + 1)
  }

  /** The next allocation at the same bitrate gives it a rate again. */
  ghost predicate GivenAgain(cs: seq<Config>, bitrate: nat, reply: Reply, i: nat)
    requires Sane(cs) && Honest(reply) && i < |cs|
  {
    ReallocateSane(cs, bitrate, reply);
    Reallocate(Reallocate(cs, bitrate, reply), bitrate, reply)[i].granted > 0
  }

  /** Nobody with these limits, whatever its company and the bitrate, is given a rate and then
      paused at the same bitrate. */
  ghost predicate NeverToggles(minBitrate: nat, maxBitrate: nat, enforceMin: bool) {
    forall cs: seq<Config>, bitrate: nat, reply: Reply, i: nat ::
      && Sane(cs) && Honest(reply) && i < |cs| && HasLimits(cs[i], minBitrate, maxBitrate, enforceMin)
      && Given(cs, bitrate, reply, i)
      ==> GivenAgain(cs, bitrate, reply, i)
  }

  lemma LimitsKeepRate(cs: seq<Config>, bitrate: nat, reply: Reply, i: nat)
    requires Sane(cs) && Honest(reply) && i < |cs| && cs[i].minBitrate > 0 && cs[i].maxBitrate > 0
    requires Given(cs, bitrate, reply, i)
    ensures GivenAgain(cs, bitrate, reply, i)
  {
    var after := Reallocate(cs, bitrate, reply);
    ReallocateSane(cs, bitrate, reply);
    AllocationSettles(cs, bitrate, reply, i + 1);
    SettledKeepsRate(after, bitrate, i);
    AllocateCovers(after, bitrate);
  }

  /** A paused observer without a minimum, and an active one that 20 kbps do not serve. */
  function WithoutMinimum(maxBitrate: nat, enforceMin: bool): seq<Config> {
    [Config(1, 0, maxBitrate, 0, enforceMin, 0, 1.0), Config(2, 20001, 20001, 0, false, 20001, 1.0)]
  }

  /** Of 20 kbps the first gets all, and then, at the same bitrate, nothing. */
  lemma NoMinimumToggles(maxBitrate: nat, enforceMin: bool)
    ensures Sane(WithoutMinimum(maxBitrate, enforceMin)) && Honest(Unprotected())
    ensures Given(WithoutMinimum(maxBitrate, enforceMin), 20000, Unprotected(), 0)
    ensures !GivenAgain(WithoutMinimum(maxBitrate, enforceMin), 20000, Unprotected(), 0)
  {
    var cs, reply := WithoutMinimum(maxBitrate, enforceMin), Unprotected();
    var after := Reallocate(cs, 20000, reply);
    UnprotectedIsCalm(cs, 20000, 1);
    AllocateCovers(cs, 20000);
    WithoutMinimumRate(maxBitrate, enforceMin);
    ReallocateSane(cs, 20000, reply);
    PairSums(after, Minimum);
    AllocateCovers(after, 20000);
    NoMinimumIsPaused(after, 20000, 0);
  }

  lemma WithoutMinimumRate(maxBitrate: nat, enforceMin: bool)
    ensures Sane(WithoutMinimum(maxBitrate, enforceMin))
    ensures 1 in Allocate(WithoutMinimum(maxBitrate, enforceMin), 20000)
    ensures Allocate(WithoutMinimum(maxBitrate, enforceMin), 20000)[1] == 20000
  {
    var cs := WithoutMinimum(maxBitrate, enforceMin);
    var g := LowGrants(cs, 20000);
    PairSums(cs, Minimum);
    PairSums(cs, EnforcedOnly);
    assert Required(cs[0]) == 20000 && Required(cs[1]) == 20001;
    LowRateAdmission(cs, 20000, 0);
    LowRateAdmission(cs, 20000, 1);
    PairCharges(cs, false, g.alloc);
    PairCharges(cs, true, g.alloc);
    LowRateShares(cs, 20000, 0);
  }

  /** An active observer with a minimum and a maximum of 0, and a paused one without a minimum. */
  function WithoutMaximum(minBitrate: nat, enforceMin: bool): seq<Config> {
    [Config(1, minBitrate, 0, 0, enforceMin, minBitrate, 1.0), Config(2, 0, minBitrate + 20000, 0, false, 0, 1.0)]
  }

  /** With 20 kbps above its minimum the first gets that, and then, at the same bitrate, nothing. */
  lemma NoMaximumToggles(minBitrate: nat, enforceMin: bool)
    requires minBitrate > 0
    ensures Sane(WithoutMaximum(minBitrate, enforceMin)) && Honest(Unprotected())
    ensures Given(WithoutMaximum(minBitrate, enforceMin), minBitrate + 20000, Unprotected(), 0)
    ensures !GivenAgain(WithoutMaximum(minBitrate, enforceMin), minBitrate + 20000, Unprotected(), 0)
  {
    var cs, bitrate, reply := WithoutMaximum(minBitrate, enforceMin), minBitrate + 20000, Unprotected();
    var after := Reallocate(cs, bitrate, reply);
    UnprotectedIsCalm(cs, bitrate, 1);
    AllocateCovers(cs, bitrate);
    WithoutMaximumRates(minBitrate, enforceMin);
    ReallocateSane(cs, bitrate, reply);
    AllocateCovers(after, bitrate);
    PairSums(after, Minimum);
    assert Required(after[0]) == minBitrate && Required(after[1]) == 0;
    assert Enough(after, bitrate);
    ZeroMaximumIff(after, bitrate, 0);
  }

  lemma WithoutMaximumRates(minBitrate: nat, enforceMin: bool)
    requires minBitrate > 0
    ensures var cs, bitrate := WithoutMaximum(minBitrate, enforceMin), minBitrate + 20000;
            && Sane(cs) && Covers(cs, Allocate(cs, bitrate)) && 1 in Allocate(cs, bitrate) && 2 in Allocate(cs, bitrate)
            && Allocate(cs, bitrate)[1] == minBitrate && Allocate(cs, bitrate)[2] == 20000
  {
    var cs, bitrate := WithoutMaximum(minBitrate, enforceMin), minBitrate + 20000;
    var g := LowGrants(cs, bitrate);
    PairSums(cs, Minimum);
    PairSums(cs, EnforcedOnly);
    assert Required(cs[0]) == minBitrate && Required(cs[1]) == 20000;
    AllocateCovers(cs, bitrate);
    LowRateAdmission(cs, bitrate, 0);
    LowRateAdmission(cs, bitrate, 1);
    PairCharges(cs, false, g.alloc);
    PairCharges(cs, true, g.alloc);
    LowRateShares(cs, bitrate, 0);
    LowRateShares(cs, bitrate, 1);
  }

  /** The exact condition on an observer's limits for never toggling at a constant bitrate. */
  lemma NeverTogglesIff(minBitrate: nat, maxBitrate: nat, enforceMin: bool)
    ensures NeverToggles(minBitrate, maxBitrate, enforceMin) <==> minBitrate > 0 && maxBitrate > 0
  {
    if minBitrate > 0 && maxBitrate > 0 {
      forall cs: seq<Config>, bitrate: nat, reply: Reply, i: nat
        | && Sane(cs) && Honest(reply) && i < |cs| && HasLimits(cs[i], minBitrate, maxBitrate, enforceMin)
          && Given(cs, bitrate, reply, i)
        ensures GivenAgain(cs, bitrate, reply, i)
      {
        LimitsKeepRate(cs, bitrate, reply, i);
      }
    } else if minBitrate == 0 {
      NoMinimumToggles(maxBitrate, enforceMin);
      assert HasLimits(WithoutMinimum(maxBitrate, enforceMin)[0], 0, maxBitrate, enforceMin);
    } else {
      NoMaximumToggles(minBitrate, enforceMin);
      assert HasLimits(WithoutMaximum(minBitrate, enforceMin)[0], minBitrate, 0, enforceMin);
    }
  }
}
