/** The allocator as a state machine: network updates, registrations and removals. */
module AllocatorMachine {
  import opened EvenShares
  import opened Observers
  import opened AllocationRules

  const DEFAULT_BITRATE_BPS := 300000

  /** What the limit observer is told. */
  datatype Limits = Limits(minSend: nat, maxPadding: nat)

  /** How an observer answers an allocation: the part it uses for protection. */
  type Reply = (ObserverId, nat) -> nat

  ghost predicate Honest(reply: Reply) {
    forall id, rate :: reply(id, rate) <= rate
  }

  datatype State = State(
    configs: seq<Config>,
    lastBitrate: nat,
    lastNonZeroBitrate: nat,
    limits: Limits,
    notices: seq<Limits>)

  const INITIAL := State([], 0, DEFAULT_BITRATE_BPS, Limits(0, 0), [])

  datatype Event =
    | NetworkChanged(bitrate: nat, reply: Reply)
    | ObserverAdded(observer: ObserverId, minBitrate: nat, maxBitrate: nat, padUp: nat, enforceMin: bool, reply: Reply)
    | ObserverRemoved(observer: ObserverId)

  ghost predicate Legal(e: Event) {
    match e
    case NetworkChanged(_, reply) => Honest(reply)
    case ObserverAdded(_, _, _, _, _, reply) => Honest(reply)
    case ObserverRemoved(_) => true
  }

  // ---------- observer records ----------

  /** The record after its observer was told `rate`. */
  function Told(c: Config, rate: nat, reply: Reply): Config
    requires Honest(reply)
  {
    c.(granted := rate,
       mediaRatio := if rate > 0 then MediaRatio(rate, reply(c.observer, rate)) else c.mediaRatio)
  }

  ghost predicate Usable(cs: seq<Config>, alloc: Allocation) {
    Covers(cs, alloc) && forall i :: 0 <= i < |cs| ==> alloc[cs[i].observer] >= 0
  }

  function TellAll(cs: seq<Config>, alloc: Allocation, reply: Reply): (after: seq<Config>)
    requires Usable(cs, alloc) && Honest(reply)
    ensures |after| == |cs|
    ensures forall i :: 0 <= i < |cs| ==> after[i] == Told(cs[i], alloc[cs[i].observer], reply)
  {
    seq(|cs|, i requires 0 <= i < |cs| => Told(cs[i], alloc[cs[i].observer], reply))
  }

  /** The first record of an observer, or the number of records. */
  function Find(cs: seq<Config>, observer: ObserverId): (k: nat)
    ensures k <= |cs|
    ensures k < |cs| ==> cs[k].observer == observer
    ensures forall i :: 0 <= i < k ==> cs[i].observer != observer
  {
    if cs == [] then 0
    else if cs[0].observer == observer then 0
    else 1 + Find(cs[1..], observer)
  }

  /** An update keeps the record's last allocation and media ratio. */
  function Register(cs: seq<Config>, e: Event): seq<Config>
    requires e.ObserverAdded?
  {
    var k := Find(cs, e.observer);
    if k < |cs| then
      cs[k := cs[k].(minBitrate := e.minBitrate, maxBitrate := e.maxBitrate,
                     padUp := e.padUp, enforceMin := e.enforceMin)]
    else
      cs + [Config(e.observer, e.minBitrate, e.maxBitrate, e.padUp, e.enforceMin, -1, 1.0)]
  }

  function Unregister(cs: seq<Config>, observer: ObserverId): seq<Config> {
    var k := Find(cs, observer);
    if k < |cs| then cs[..k] + cs[k + 1..] else cs
  }

  // ---------- limits ----------

  function Padding(c: Config): nat {
    if !c.enforceMin && c.granted == 0 then Max(Required(c), c.padUp) else c.padUp
  }

  function SumPadding(cs: seq<Config>): nat {
    if cs == [] then 0 else Padding(cs[0]) + SumPadding(cs[1..])
  }

  function CurrentLimits(cs: seq<Config>): Limits { Limits(SumEnforcedMin(cs), SumPadding(cs)) }

  /** The limit observer only hears about changes. */
  function UpdateLimits(s: State): State {
    var current := CurrentLimits(s.configs);
    if current == s.limits then s else s.(limits := current, notices := s.notices + [current])
  }

  // ---------- transitions ----------

  function Reallocate(cs: seq<Config>, bitrate: nat, reply: Reply): seq<Config>
    requires Sane(cs) && Honest(reply)
  {
    AllocateCovers(cs, bitrate);
    TellAll(cs, Allocate(cs, bitrate), reply)
  }

  /** The state of a network update before the limits are brought up to date. */
  function AfterNetwork(s: State, bitrate: nat, reply: Reply): State
    requires Sane(s.configs) && Honest(reply)
  {
    s.(lastBitrate := bitrate,
       lastNonZeroBitrate := if bitrate > 0 then bitrate else s.lastNonZeroBitrate,
       configs := Reallocate(s.configs, bitrate, reply))
  }

  /** The state of a registration before the limits are brought up to date. */
  function AfterAdded(s: State, e: Event): State
    requires Sane(s.configs) && e.ObserverAdded? && Legal(e)
  {
    RegisterSane(s.configs, e);
    var cs := Register(s.configs, e);
    s.(configs := if s.lastBitrate > 0 then Reallocate(cs, s.lastBitrate, e.reply) else cs)
  }

  function Step(s: State, e: Event): State
    requires Sane(s.configs) && Legal(e)
  {
    match e
    case NetworkChanged(bitrate, reply) => UpdateLimits(AfterNetwork(s, bitrate, reply))
    case ObserverAdded(_, _, _, _, _, _) => UpdateLimits(AfterAdded(s, e))
    case ObserverRemoved(observer) => UpdateLimits(s.(configs := Unregister(s.configs, observer)))
  }

  /** The rates that observers are told in a step. While the network is down only the
      observer being added hears anything, and that is zero. */
  function Rates(s: State, e: Event): Allocation
    requires Sane(s.configs) && Legal(e)
  {
    match e
    case NetworkChanged(bitrate, _) => Allocate(s.configs, bitrate)
    case ObserverAdded(observer, _, _, _, _, _) =>
      RegisterSane(s.configs, e);
      if s.lastBitrate > 0 then Allocate(Register(s.configs, e), s.lastBitrate) else map[observer := 0]
    case ObserverRemoved(_) => map[]
  }

  // ---------- the reachable states ----------

  /** An observer without an allocation exists only while the network is down, and while
      it is down nobody has one. */
  ghost predicate GrantsFitNetwork(s: State) {
    forall i :: 0 <= i < |s.configs| ==>
                  var g := s.configs[i].granted;
                  (g == -1 ==> s.lastBitrate == 0) && (s.lastBitrate == 0 ==> g == -1 || g == 0)
  }

  /** The latest notice equals the cached limits and no notice repeats the one before. */
  ghost predicate NoticesFit(s: State) {
    var heard := [Limits(0, 0)] + s.notices;
    && heard[|heard| - 1] == s.limits
    && forall i :: 0 <= i < |s.notices| ==> heard[i] != heard[i + 1]
  }

  ghost predicate Valid(s: State) {
    && Sane(s.configs)
    && GrantsFitNetwork(s)
    && s.limits == CurrentLimits(s.configs)
    && NoticesFit(s)
    && 0 < s.lastNonZeroBitrate
    && (0 < s.lastBitrate ==> s.lastNonZeroBitrate == s.lastBitrate)
  }

  lemma InitialValid()
    ensures Valid(INITIAL) && INITIAL.lastNonZeroBitrate == 300000
  {
  }

  lemma RegisterSane(cs: seq<Config>, e: Event)
    requires Sane(cs) && e.ObserverAdded? && Legal(e)
    ensures Sane(Register(cs, e))
  {
  }

  lemma UnregisterSane(cs: seq<Config>, observer: ObserverId)
    requires Sane(cs)
    ensures Sane(Unregister(cs, observer))
    ensures forall c :: c in Unregister(cs, observer) <==> c in cs && c.observer != observer
  {
    var k, after := Find(cs, observer), Unregister(cs, observer);
    if k < |cs| {
      forall i | 0 <= i < |after| ensures after[i] in cs && after[i].observer != observer {
        assert after[i] == if i < k then cs[i] else cs[i + 1];
      }
      forall c | c in cs && c.observer != observer ensures c in after {
        var i :| 0 <= i < |cs| && cs[i] == c;
        assert c == after[if i < k then i else i - 1];
      }
    }
  }

  lemma UpdateLimitsFits(s: State)
    requires NoticesFit(s)
    ensures NoticesFit(UpdateLimits(s)) && UpdateLimits(s).limits == CurrentLimits(s.configs)
  {
    var after := UpdateLimits(s);
    var heard, heardAfter := [Limits(0, 0)] + s.notices, [Limits(0, 0)] + after.notices;
    assert heard <= heardAfter;
    assert heard[|heard| - 1] == s.limits;
  }

  lemma ReallocateSane(cs: seq<Config>, bitrate: nat, reply: Reply)
    requires Sane(cs) && Honest(reply)
    ensures Sane(Reallocate(cs, bitrate, reply))
    ensures forall i :: 0 <= i < |cs| ==>
                          && Reallocate(cs, bitrate, reply)[i].granted >= 0
                          && (bitrate == 0 ==> Reallocate(cs, bitrate, reply)[i].granted == 0)
  {
    AllocateCovers(cs, bitrate);
    forall i | 0 <= i < |cs| ensures bitrate == 0 ==> Allocate(cs, bitrate)[cs[i].observer] == 0 {
      AllocateAt(cs, bitrate, i);
    }
  }

  lemma NetworkKeepsValid(s: State, bitrate: nat, reply: Reply)
    requires Valid(s) && Honest(reply)
    ensures Valid(Step(s, NetworkChanged(bitrate, reply)))
  {
    ReallocateSane(s.configs, bitrate, reply);
    UpdateLimitsFits(AfterNetwork(s, bitrate, reply));
  }

  lemma AddedKeepsValid(s: State, e: Event)
    requires Valid(s) && e.ObserverAdded? && Legal(e)
    ensures Valid(Step(s, e))
  {
    RegisterSane(s.configs, e);
    if s.lastBitrate > 0 {
      ReallocateSane(Register(s.configs, e), s.lastBitrate, e.reply);
    }
    UpdateLimitsFits(AfterAdded(s, e));
  }

  lemma RemovedKeepsValid(s: State, observer: ObserverId)
    requires Valid(s)
    ensures Valid(Step(s, ObserverRemoved(observer)))
  {
    UnregisterSane(s.configs, observer);
    var after := s.(configs := Unregister(s.configs, observer));
    forall i | 0 <= i < |after.configs| ensures after.configs[i] in s.configs {
      assert after.configs[i] in after.configs;
    }
    UpdateLimitsFits(after);
  }

  /** Every step keeps the reachable-state invariant. */
  lemma StepKeepsValid(s: State, e: Event)
    requires Valid(s) && Legal(e)
    ensures Valid(Step(s, e))
  {
    match e
    case NetworkChanged(bitrate, reply) => NetworkKeepsValid(s, bitrate, reply);
    case ObserverAdded(_, _, _, _, _, _) => AddedKeepsValid(s, e);
    case ObserverRemoved(observer) => RemovedKeepsValid(s, observer);
  }

  // ---------- whole runs ----------

  ghost predicate LegalRun(events: seq<Event>) {
    forall i :: 0 <= i < |events| ==> Legal(events[i])
  }

  ghost function Run(s: State, events: seq<Event>): State
    requires Valid(s) && LegalRun(events)
    decreases |events|
  {
    if events == [] then s
    else
      StepKeepsValid(s, events[0]);
      Run(Step(s, events[0]), events[1..])
  }

  /** The invariant holds throughout every run. */
  lemma {:induction false} RunKeepsValid(s: State, events: seq<Event>)
    requires Valid(s) && LegalRun(events)
    ensures Valid(Run(s, events))
    decreases |events|
  {
    if events != [] {
      StepKeepsValid(s, events[0]);
      RunKeepsValid(Step(s, events[0]), events[1..]);
    }
  }

  /** The step leaves the observer's registration alone and offers less than `required`. */
  ghost predicate Bystander(e: Event, observer: ObserverId, required: nat) {
    match e
    case NetworkChanged(bitrate, _) => bitrate < required
    case ObserverAdded(other, _, _, _, _, _) => other != observer
    case ObserverRemoved(other) => other != observer
  }

  /** A paused observer's record survives an allocation below its required rate as it is. */
  lemma ReallocateKeepsPaused(cs: seq<Config>, bitrate: nat, reply: Reply, c: Config)
    requires Sane(cs) && Honest(reply)
    requires c in cs && !c.enforceMin && c.granted == 0 && bitrate < Required(c)
    ensures c in Reallocate(cs, bitrate, reply)
  {
    AllocateCovers(cs, bitrate);
    var i :| 0 <= i < |cs| && cs[i] == c;
    DeniedBelowRequired(cs, bitrate, i);
    assert Reallocate(cs, bitrate, reply)[i] == c;
  }

  /** Resuming a paused observer takes its minimum and 10% or 20 kbps more, whichever is
      larger. */
  lemma ResumeTakesIncrease(cs: seq<Config>, bitrate: nat, reply: Reply, i: nat)
    requires Sane(cs) && Honest(reply) && i < |cs| && !cs[i].enforceMin && cs[i].granted == 0
    requires Reallocate(cs, bitrate, reply)[i].granted > 0
    ensures bitrate >= cs[i].minBitrate + Max(cs[i].minBitrate / 10, 20000)
  {
    AllocateCovers(cs, bitrate);
    if bitrate < Required(cs[i]) {
      DeniedBelowRequired(cs, bitrate, i);
    }
  }

  lemma StepKeepsPaused(s: State, e: Event, c: Config)
    requires Valid(s) && Legal(e) && Bystander(e, c.observer, Required(c))
    requires c in s.configs && !c.enforceMin && c.granted == 0 && s.lastBitrate < Required(c)
    ensures c in Step(s, e).configs && Step(s, e).lastBitrate < Required(c)
  {
    match e
    case NetworkChanged(bitrate, reply) =>
      ReallocateKeepsPaused(s.configs, bitrate, reply, c);
    case ObserverAdded(_, _, _, _, _, reply) =>
      RegisterSane(s.configs, e);
      var cs := Register(s.configs, e);
      var i :| 0 <= i < |s.configs| && s.configs[i] == c;
      assert cs[i] == c;
      if s.lastBitrate > 0 {
        ReallocateKeepsPaused(cs, s.lastBitrate, reply, c);
      }
    case ObserverRemoved(observer) =>
      UnregisterSane(s.configs, observer);
  }

  /** Hysteresis over whole runs: a paused observer stays paused, with the same media
      ratio and the same required rate, as long as every bitrate offered is below that
      rate, whatever happens to the other observers. */
  lemma {:induction false} RunKeepsPaused(s: State, events: seq<Event>, c: Config)
    requires Valid(s) && LegalRun(events)
    requires forall i :: 0 <= i < |events| ==> Bystander(events[i], c.observer, Required(c))
    requires c in s.configs && !c.enforceMin && c.granted == 0 && s.lastBitrate < Required(c)
    ensures c in Run(s, events).configs
    decreases |events|
  {
    if events != [] {
      StepKeepsValid(s, events[0]);
      StepKeepsPaused(s, events[0], c);
      RunKeepsPaused(Step(s, events[0]), events[1..], c);
    }
  }

  // ---------- what is held at every moment ----------

  function SumGranted(cs: seq<Config>): int {
    if cs == [] then 0 else cs[0].granted + SumGranted(cs[1..])
  }

  /** An enforced observer holds at least its minimum, any other nothing or at least its own. */
  ghost predicate Held(c: Config) {
    if c.enforceMin then c.granted >= c.minBitrate else c.granted == 0 || c.granted >= c.minBitrate
  }

  ghost predicate OrderedEvent(e: Event) {
    e.ObserverAdded? ==> e.minBitrate <= e.maxBitrate
  }

  /** While the network is up, minima are respected and only enforced minima can make the
      total held exceed the last bitrate. */
  ghost predicate Served(s: State) {
    && AllOrdered(s.configs)
    && (s.lastBitrate > 0 ==>
         && (forall i :: 0 <= i < |s.configs| ==> Held(s.configs[i]))
         && SumGranted(s.configs) <= Max(s.lastBitrate, SumEnforcedMin(s.configs)))
  }

  lemma {:induction false} TellAllTotals(cs: seq<Config>, alloc: Allocation, reply: Reply)
    requires Usable(cs, alloc) && Honest(reply)
    ensures SumGranted(TellAll(cs, alloc, reply)) == Total(cs, alloc)
    ensures SumEnforcedMin(TellAll(cs, alloc, reply)) == SumEnforcedMin(cs)
  {
    if cs != [] {
      TellAllTotals(cs[1..], alloc, reply);
      assert TellAll(cs, alloc, reply)[1..] == TellAll(cs[1..], alloc, reply);
    }
  }

  lemma ReallocateServes(cs: seq<Config>, bitrate: nat, reply: Reply)
    requires Sane(cs) && AllOrdered(cs) && Honest(reply)
    ensures var after := Reallocate(cs, bitrate, reply);
            && AllOrdered(after)
            && (bitrate > 0 ==> forall i :: 0 <= i < |after| ==> Held(after[i]))
            && (bitrate > 0 ==> SumGranted(after) <= Max(bitrate, SumEnforcedMin(after)))
  {
    AllocateCovers(cs, bitrate);
    AllocateBudget(cs, bitrate);
    TellAllTotals(cs, Allocate(cs, bitrate), reply);
    forall i | 0 <= i < |cs| ensures bitrate > 0 ==> Held(Reallocate(cs, bitrate, reply)[i]) {
      AllocateAt(cs, bitrate, i);
    }
  }

  lemma {:induction false} SumsWithout(cs: seq<Config>, k: nat)
    requires k < |cs|
    ensures SumGranted(cs[..k] + cs[k + 1..]) == SumGranted(cs) - cs[k].granted
    ensures SumEnforcedMin(cs[..k] + cs[k + 1..]) == SumEnforcedMin(cs) - BaseRate(EnforcedOnly, cs[k])
  {
    if k == 0 {
      assert cs[..k] + cs[k + 1..] == cs[1..];
    } else {
      SumsWithout(cs[1..], k - 1);
      assert (cs[..k] + cs[k + 1..])[1..] == cs[1..][..k - 1] + cs[1..][k..];
    }
  }

  lemma RemovedKeepsServed(s: State, observer: ObserverId)
    requires Served(s)
    ensures Served(s.(configs := Unregister(s.configs, observer)))
  {
    var k := Find(s.configs, observer);
    if k < |s.configs| {
      SumsWithout(s.configs, k);
      var after := Unregister(s.configs, observer);
      forall i | 0 <= i < |after| ensures Ordered(after[i]) && (s.lastBitrate > 0 ==> Held(after[i])) {
        assert after[i] == if i < k then s.configs[i] else s.configs[i + 1];
      }
      assert s.lastBitrate > 0 ==> Held(s.configs[k]);
    }
  }

  lemma StepKeepsServed(s: State, e: Event)
    requires Valid(s) && Legal(e) && OrderedEvent(e) && Served(s)
    ensures Served(Step(s, e))
  {
    match e
    case NetworkChanged(bitrate, reply) =>
      ReallocateServes(s.configs, bitrate, reply);
    case ObserverAdded(_, _, _, _, _, reply) =>
      RegisterSane(s.configs, e);
      assert AllOrdered(Register(s.configs, e));
      ReallocateServes(Register(s.configs, e), s.lastBitrate, reply);
    case ObserverRemoved(observer) =>
      RemovedKeepsServed(s, observer);
  }

  /** Budget and minima over whole runs, removals in between included. */
  lemma {:induction false} RunKeepsServed(s: State, events: seq<Event>)
    requires Valid(s) && Served(s) && LegalRun(events)
    requires forall i :: 0 <= i < |events| ==> OrderedEvent(events[i])
    ensures Served(Run(s, events))
    decreases |events|
  {
    if events != [] {
      StepKeepsValid(s, events[0]);
      StepKeepsServed(s, events[0]);
      RunKeepsServed(Step(s, events[0]), events[1..]);
    }
  }
}
