/** Audio send streams as clients of the allocator, over all runs of the two together. */
module AudioMachine {
  import opened Observers
  import opened AllocationRules
  import M = AllocatorMachine
  import R = AllocatorRecords

  /** A stream's configured limits; -1 is "not set". */
  datatype Limits = Limits(minBitrate: int, maxBitrate: int) {
    predicate Configured() { minBitrate != -1 && maxBitrate != -1 }
    predicate Legal() { Configured() ==> 0 <= minBitrate <= maxBitrate }
  }

  const UNSET := Limits(-1, -1)

  /** The allocator and the live audio streams by observer. */
  datatype System = System(allocator: M.State, audio: map<ObserverId, Limits>)

  datatype Action =
    | Create(id: ObserverId, limits: Limits, reply: M.Reply)
    | Start(id: ObserverId, reply: M.Reply)
    | Stop(id: ObserverId)
    | Reconfigure(id: ObserverId, limits: Limits, reply: M.Reply)
    | Destroy(id: ObserverId)
    | Network(bitrate: nat, reply: M.Reply)
    | OtherAdded(id: ObserverId, minBitrate: nat, maxBitrate: nat, padUp: nat, enforceMin: bool, reply: M.Reply)
    | OtherRemoved(id: ObserverId)

  ghost predicate Registered(a: M.State, id: ObserverId) {
    exists i :: 0 <= i < |a.configs| && a.configs[i].observer == id
  }

  /** A created stream is a new object; the other actions name live ones. */
  ghost predicate Enabled(s: System, a: Action) {
    match a
    case Create(id, limits, reply) =>
      id !in s.audio && !Registered(s.allocator, id) && limits.Legal() && M.Honest(reply)
    case Start(id, reply) => id in s.audio && M.Honest(reply)
    case Stop(id) => id in s.audio
    case Reconfigure(id, limits, reply) => id in s.audio && limits.Legal() && M.Honest(reply)
    case Destroy(id) => id in s.audio
    case Network(_, reply) => M.Honest(reply)
    case OtherAdded(id, _, _, _, _, reply) => id !in s.audio && M.Honest(reply)
    case OtherRemoved(id) => id !in s.audio
  }

  function Register(id: ObserverId, limits: Limits, reply: M.Reply): M.Event
    requires limits.Configured() && limits.Legal()
  {
    M.ObserverAdded(id, limits.minBitrate, limits.maxBitrate, 0, true, reply)
  }

  /** ReconfigureBitrateObserver: what a change of limits asks of the allocator. */
  function Change(id: ObserverId, before: Limits, after: Limits, reply: M.Reply): seq<M.Event>
    requires after.Legal()
  {
    if before == after then []
    else if after.Configured() then [Register(id, after, reply)]
    else [M.ObserverRemoved(id)]
  }

  /** The allocator event of an action, if any. */
  function Request(s: System, a: Action): seq<M.Event>
    requires Enabled(s, a) && Valid(s)
  {
    match a
    case Create(id, limits, reply) => Change(id, UNSET, limits, reply)
    case Start(id, reply) => if s.audio[id].Configured() then [Register(id, s.audio[id], reply)] else []
    case Stop(id) => [M.ObserverRemoved(id)]
    case Reconfigure(id, limits, reply) => Change(id, s.audio[id], limits, reply)
    case Destroy(id) => [M.ObserverRemoved(id)]
    case Network(bitrate, reply) => [M.NetworkChanged(bitrate, reply)]
    case OtherAdded(id, lo, hi, pad, enforce, reply) => [M.ObserverAdded(id, lo, hi, pad, enforce, reply)]
    case OtherRemoved(id) => [M.ObserverRemoved(id)]
  }

  function Streams(s: System, a: Action): map<ObserverId, Limits> {
    match a
    case Create(id, limits, _) => s.audio[id := limits]
    case Reconfigure(id, limits, _) => s.audio[id := limits]
    case Destroy(id) => s.audio - {id}
    case _ => s.audio
  }

  function Step(s: System, a: Action): System
    requires Enabled(s, a) && Valid(s)
  {
    var request := Request(s, a);
    System(if request == [] then s.allocator else M.Step(s.allocator, request[0]), Streams(s, a))
  }

  /** The rates told to observers during an action. */
  function Rates(s: System, a: Action): Allocation
    requires Enabled(s, a) && Valid(s)
  {
    var request := Request(s, a);
    if request == [] then map[] else M.Rates(s.allocator, request[0])
  }

  /** OnBitrateUpdated: the rate the encoder is told. */
  function EncoderRate(limits: Limits, rate: nat): int {
    var wanted := if rate == 0 then limits.minBitrate else rate;
    if wanted > limits.maxBitrate then limits.maxBitrate else wanted
  }

  /** OnBitrateUpdated's check. */
  predicate CheckPasses(limits: Limits, rate: nat) {
    rate == 0 || rate >= limits.minBitrate
  }

  // ---------- the invariant ----------

  /** A registered audio stream is registered with its own limits, as enforced. */
  ghost predicate Agrees(c: Config, audio: map<ObserverId, Limits>) {
    c.observer in audio ==>
      && audio[c.observer].Configured()
      && c.minBitrate == audio[c.observer].minBitrate
      && c.maxBitrate == audio[c.observer].maxBitrate
      && c.enforceMin && c.padUp == 0
  }

  ghost predicate Valid(s: System) {
    && M.Valid(s.allocator)
    && AllAgree(s.allocator.configs, s.audio)
    && (forall id :: id in s.audio ==> s.audio[id].Legal())
  }

  /** What every audio stream hears in an action passes its check, and its encoder is told
      a rate within the stream's limits. */
  ghost predicate Safe(s: System, a: Action)
    requires Enabled(s, a) && Valid(s)
  {
    forall id :: id in Rates(s, a) && id in Step(s, a).audio ==>
                   var limits, rate := Step(s, a).audio[id], Rates(s, a)[id];
                   && limits.Configured() && rate >= 0
                   && CheckPasses(limits, rate)
                   && limits.minBitrate <= EncoderRate(limits, rate) <= limits.maxBitrate
                   && (limits.minBitrate <= rate <= limits.maxBitrate ==> EncoderRate(limits, rate) == rate)
  }

  ghost predicate AllAgree(cs: seq<Config>, audio: map<ObserverId, Limits>) {
    forall i :: 0 <= i < |cs| ==> Agrees(cs[i], audio)
  }

  lemma ReallocateKeepsAgreement(cs: seq<Config>, bitrate: nat, reply: M.Reply, audio: map<ObserverId, Limits>)
    requires Sane(cs) && M.Honest(reply) && AllAgree(cs, audio)
    ensures AllAgree(M.Reallocate(cs, bitrate, reply), audio)
  {
    AllocateCovers(cs, bitrate);
    var after := M.Reallocate(cs, bitrate, reply);
    forall i | 0 <= i < |after| ensures Agrees(after[i], audio) {
      assert after[i] == M.Told(cs[i], Allocate(cs, bitrate)[cs[i].observer], reply);
      assert Agrees(cs[i], audio);
    }
  }

  /** The records agree, except perhaps that of the observer the event is about. */
  ghost predicate OthersAgree(cs: seq<Config>, e: M.Event, audio: map<ObserverId, Limits>) {
    forall i :: 0 <= i < |cs| ==>
                  Agrees(cs[i], audio) || (!e.NetworkChanged? && cs[i].observer == e.observer)
  }

  lemma RegisterAgrees(cs: seq<Config>, e: M.Event, audio: map<ObserverId, Limits>)
    requires Sane(cs) && e.ObserverAdded? && M.Legal(e) && OthersAgree(cs, e, audio)
    requires Agrees(Config(e.observer, e.minBitrate, e.maxBitrate, e.padUp, e.enforceMin, -1, 1.0), audio)
    ensures AllAgree(M.Register(cs, e), audio)
  {
    var k, after := M.Find(cs, e.observer), M.Register(cs, e);
    forall i | 0 <= i < |after| ensures Agrees(after[i], audio) {
      if i < |cs| && i != k {
        assert after[i] == cs[i] && cs[i].observer != e.observer;
      }
    }
  }

  /** What an allocator event makes of the records, seen from the clients. */
  lemma EventKeepsAgreement(a: M.State, e: M.Event, audio: map<ObserverId, Limits>)
    requires M.Valid(a) && M.Legal(e) && OthersAgree(a.configs, e, audio)
    requires e.ObserverAdded? ==>
               Agrees(Config(e.observer, e.minBitrate, e.maxBitrate, e.padUp, e.enforceMin, -1, 1.0), audio)
    ensures AllAgree(M.Step(a, e).configs, audio)
  {
    match e
    case NetworkChanged(bitrate, reply) =>
      ReallocateKeepsAgreement(a.configs, bitrate, reply, audio);
    case ObserverAdded(_, _, _, _, _, reply) =>
      RegisterAgrees(a.configs, e, audio);
      M.RegisterSane(a.configs, e);
      ReallocateKeepsAgreement(M.Register(a.configs, e), a.lastBitrate, reply, audio);
    case ObserverRemoved(observer) =>
      M.UnregisterSane(a.configs, observer);
      var after := M.Unregister(a.configs, observer);
      forall i | 0 <= i < |after| ensures Agrees(after[i], audio) {
        assert after[i] in after;
      }
  }

  /** The event an action asks for disturbs no agreement but, perhaps, its own stream's. */
  lemma RequestFits(s: System, a: Action)
    requires Enabled(s, a) && Valid(s) && Request(s, a) != []
    ensures var e, audio := Request(s, a)[0], Streams(s, a);
            && M.Legal(e)
            && OthersAgree(s.allocator.configs, e, audio)
            && (e.ObserverAdded? ==>
                 Agrees(Config(e.observer, e.minBitrate, e.maxBitrate, e.padUp, e.enforceMin, -1, 1.0), audio))
  {
    var e, audio, cs := Request(s, a)[0], Streams(s, a), s.allocator.configs;
    forall i | 0 <= i < |cs| && (e.NetworkChanged? || cs[i].observer != e.observer) ensures Agrees(cs[i], audio) {
      assert Agrees(cs[i], s.audio);
    }
  }

  lemma StepKeepsValid(s: System, a: Action)
    requires Enabled(s, a) && Valid(s)
    ensures Valid(Step(s, a))
  {
    if Request(s, a) != [] {
      RequestFits(s, a);
      M.StepKeepsValid(s.allocator, Request(s, a)[0]);
      EventKeepsAgreement(s.allocator, Request(s, a)[0], Streams(s, a));
    }
  }

  /** Rates for a list in which the audio streams agree are safe for them. */
  lemma AllocationSafe(cs: seq<Config>, bitrate: nat, audio: map<ObserverId, Limits>, id: ObserverId)
    requires Sane(cs) && id in audio && audio[id].Legal() && id in Allocate(cs, bitrate)
    requires AllAgree(cs, audio)
    ensures audio[id].Configured() && Allocate(cs, bitrate)[id] >= 0
    ensures CheckPasses(audio[id], Allocate(cs, bitrate)[id])
  {
    AllocateOnlyObservers(cs, bitrate, id);
    var i :| 0 <= i < |cs| && cs[i].observer == id;
    AllocateAt(cs, bitrate, i);
  }

  /** What the audio streams hear of one allocator event. */
  ghost predicate HeardSafely(told: Allocation, audio: map<ObserverId, Limits>) {
    forall id :: id in told && id in audio ==>
                   audio[id].Configured() && told[id] >= 0 && CheckPasses(audio[id], told[id])
  }

  lemma AllocationHeardSafely(cs: seq<Config>, bitrate: nat, audio: map<ObserverId, Limits>)
    requires Sane(cs) && AllAgree(cs, audio) && forall id :: id in audio ==> audio[id].Legal()
    ensures HeardSafely(Allocate(cs, bitrate), audio)
  {
    forall id | id in Allocate(cs, bitrate) && id in audio
      ensures && audio[id].Configured() && Allocate(cs, bitrate)[id] >= 0
              && CheckPasses(audio[id], Allocate(cs, bitrate)[id])
    {
      AllocationSafe(cs, bitrate, audio, id);
    }
  }

  lemma EventHeardSafely(a: M.State, e: M.Event, audio: map<ObserverId, Limits>)
    requires M.Valid(a) && M.Legal(e) && OthersAgree(a.configs, e, audio)
    requires forall id :: id in audio ==> audio[id].Legal()
    requires e.ObserverAdded? ==>
               && Agrees(Config(e.observer, e.minBitrate, e.maxBitrate, e.padUp, e.enforceMin, -1, 1.0), audio)
    ensures HeardSafely(M.Rates(a, e), audio)
  {
    match e
    case NetworkChanged(bitrate, _) => AllocationHeardSafely(a.configs, bitrate, audio);
    case ObserverAdded(_, _, _, _, _, _) =>
      M.RegisterSane(a.configs, e);
      RegisterAgrees(a.configs, e, audio);
      AllocationHeardSafely(M.Register(a.configs, e), a.lastBitrate, audio);
    case ObserverRemoved(_) =>
  }

  lemma StepSafe(s: System, a: Action)
    requires Enabled(s, a) && Valid(s)
    ensures Safe(s, a)
  {
    var request, audio := Request(s, a), Streams(s, a);
    StepKeepsValid(s, a);
    if request != [] {
      RequestFits(s, a);
      EventHeardSafely(s.allocator, request[0], audio);
    }
  }

  /** Reconfiguring the only audio stream of a system. */
  lemma ReconfigureOne(a: M.State, id: ObserverId, before: Limits, after: Limits, reply: M.Reply)
    requires Valid(System(a, map[id := before])) && after.Legal() && M.Honest(reply)
    ensures var request := Change(id, before, after, reply);
            var next := System(if request == [] then a else M.Step(a, request[0]), map[id := after]);
            Valid(next) && next == Step(System(a, map[id := before]), Reconfigure(id, after, reply))
    ensures before != after && after.Configured() ==>
              HeardSafely(M.Rates(a, Register(id, after, reply)), map[id := after])
  {
    var s, action := System(a, map[id := before]), Reconfigure(id, after, reply);
    assert Streams(s, action) == map[id := after];
    StepKeepsValid(s, action);
    if before != after && after.Configured() {
      EventHeardSafely(a, Register(id, after, reply), map[id := after]);
    }
  }

  // ---------- who is registered ----------

  lemma AddedRegisters(a: M.State, e: M.Event, id: ObserverId)
    requires M.Valid(a) && M.Legal(e) && e.ObserverAdded?
    ensures Registered(M.Step(a, e), id) <==> e.observer == id || Registered(a, id)
  {
    R.AddedRecords(a, e);
    var before, after := a.configs, M.Step(a, e).configs;
    var k: nat :| R.Once(after, e.observer, k) && R.AsPassed(after[k], e);
    if Registered(a, id) {
      var i :| 0 <= i < |before| && before[i].observer == id;
      assert after[i].observer == id;
    }
    if Registered(M.Step(a, e), id) && e.observer != id {
      var i :| 0 <= i < |after| && after[i].observer == id;
      R.EnrolledOthers(before, after, e, i);
    }
  }

  /** Exactly additions and removals change who is registered. */
  lemma EventRegisters(a: M.State, e: M.Event, id: ObserverId)
    requires M.Valid(a) && M.Legal(e)
    ensures Registered(M.Step(a, e), id) <==>
            match e
            case NetworkChanged(_, _) => Registered(a, id)
            case ObserverAdded(observer, _, _, _, _, _) => observer == id || Registered(a, id)
            case ObserverRemoved(observer) => observer != id && Registered(a, id)
  {
    match e
    case NetworkChanged(bitrate, reply) =>
      R.NetworkRecords(a, bitrate, reply);
      assert forall i :: 0 <= i < |a.configs| ==> M.Step(a, e).configs[i].observer == a.configs[i].observer;
    case ObserverAdded(_, _, _, _, _, _) => AddedRegisters(a, e, id);
    case ObserverRemoved(observer) =>
      var after := M.Step(a, e).configs;
      M.UnregisterSane(a.configs, observer);
      if i :| 0 <= i < |after| && after[i].observer == id {
        assert after[i] in after;
      }
      if i :| 0 <= i < |a.configs| && a.configs[i].observer == id && id != observer {
        assert a.configs[i] in after;
      }
  }

  /** Who is registered after an action: a stream from its creation or start with limits, or
      from a change to limits, until it is stopped, destroyed or changed to no limits. A
      change to the same limits is none. */
  ghost predicate RegisteredAfter(s: System, a: Action, id: ObserverId)
    requires Enabled(s, a)
  {
    match a
    case Create(x, limits, _) => if x == id then limits.Configured() else Registered(s.allocator, id)
    case Start(x, _) => (x == id && s.audio[x].Configured()) || Registered(s.allocator, id)
    case Stop(x) => x != id && Registered(s.allocator, id)
    case Reconfigure(x, limits, _) =>
      if x == id && limits != s.audio[x] then limits.Configured() else Registered(s.allocator, id)
    case Destroy(x) => x != id && Registered(s.allocator, id)
    case Network(_, _) => Registered(s.allocator, id)
    case OtherAdded(x, _, _, _, _, _) => x == id || Registered(s.allocator, id)
    case OtherRemoved(x) => x != id && Registered(s.allocator, id)
  }

  lemma StepRegisters(s: System, a: Action, id: ObserverId)
    requires Enabled(s, a) && Valid(s)
    ensures Registered(Step(s, a).allocator, id) <==> RegisteredAfter(s, a, id)
    ensures id in Step(s, a).audio <==>
            match a
            case Create(x, _, _) => x == id || id in s.audio
            case Destroy(x) => x != id && id in s.audio
            case _ => id in s.audio
    ensures a.Reconfigure? && a.limits == s.audio[a.id] ==> Step(s, a) == s
  {
    if Request(s, a) != [] {
      RequestFits(s, a);
      EventRegisters(s.allocator, Request(s, a)[0], id);
    }
    if a.Reconfigure? && a.limits == s.audio[a.id] {
      assert s.audio[a.id := a.limits] == s.audio;
    }
  }

  /** The action leaves the stream live and with limits, and does not stop it. */
  predicate Keeps(a: Action, id: ObserverId) {
    match a
    case Stop(x) => x != id
    case Destroy(x) => x != id
    case Reconfigure(x, limits, _) => x == id ==> limits.Configured()
    case _ => true
  }

  /** And while it is registered, every network update with a bitrate gives it its minimum. */
  lemma RegisteredIsServed(s: System, a: Action, id: ObserverId)
    requires Enabled(s, a) && Valid(s) && a.Network? && a.bitrate > 0
    requires id in s.audio && Registered(s.allocator, id)
    ensures s.audio[id].Configured() && id in Rates(s, a) && Rates(s, a)[id] >= s.audio[id].minBitrate
  {
    var i :| 0 <= i < |s.allocator.configs| && s.allocator.configs[i].observer == id;
    assert Agrees(s.allocator.configs[i], s.audio);
    AllocateAt(s.allocator.configs, a.bitrate, i);
  }

  // ---------- whole runs ----------

  /** Every action of the run, where it happens, is enabled. */
  ghost predicate EnabledRun(s: System, actions: seq<Action>)
    requires Valid(s)
    decreases |actions|
  {
    actions == [] ||
    (Enabled(s, actions[0]) && (StepKeepsValid(s, actions[0]); EnabledRun(Step(s, actions[0]), actions[1..])))
  }

  ghost predicate SafeRun(s: System, actions: seq<Action>)
    requires Valid(s) && EnabledRun(s, actions)
    decreases |actions|
  {
    actions == [] ||
    (Safe(s, actions[0]) && (StepKeepsValid(s, actions[0]); SafeRun(Step(s, actions[0]), actions[1..])))
  }

  /** End to end for audio: in every run no check fires and every encoder stays within its
      stream's limits. */
  lemma {:induction false} EveryRunSafe(s: System, actions: seq<Action>)
    requires Valid(s) && EnabledRun(s, actions)
    ensures SafeRun(s, actions)
    decreases |actions|
  {
    if actions != [] {
      StepSafe(s, actions[0]);
      StepKeepsValid(s, actions[0]);
      EveryRunSafe(Step(s, actions[0]), actions[1..]);
    }
  }

  /** A registered stream gets its minimum at every network update with a bitrate of the run. */
  ghost predicate ServedRun(s: System, actions: seq<Action>, id: ObserverId)
    requires Valid(s) && EnabledRun(s, actions)
    decreases |actions|
  {
    actions == [] ||
    (&& (actions[0].Network? && actions[0].bitrate > 0 ==>
          id in s.audio && id in Rates(s, actions[0]) && Rates(s, actions[0])[id] >= s.audio[id].minBitrate)
     && (StepKeepsValid(s, actions[0]); ServedRun(Step(s, actions[0]), actions[1..], id)))
  }

  lemma {:induction false} EveryRunServes(s: System, actions: seq<Action>, id: ObserverId)
    requires Valid(s) && EnabledRun(s, actions)
    requires id in s.audio && Registered(s.allocator, id)
    requires forall i :: 0 <= i < |actions| ==> Keeps(actions[i], id)
    ensures ServedRun(s, actions, id)
    decreases |actions|
  {
    if actions != [] {
      if actions[0].Network? && actions[0].bitrate > 0 {
        RegisteredIsServed(s, actions[0], id);
      }
      StepRegisters(s, actions[0], id);
      StepKeepsValid(s, actions[0]);
      EveryRunServes(Step(s, actions[0]), actions[1..], id);
    }
  }

  lemma InitialValid()
    ensures Valid(System(M.INITIAL, map[]))
  {
    M.InitialValid();
  }
}

/** One audio send stream, updating its limits and its registration in place. */
module AudioSendStreams {
  import opened Observers
  import opened BitrateAllocators
  import M = AllocatorMachine
  import A = AudioMachine

  class AudioSendStream {
    const id: ObserverId
    const allocator: BitrateAllocator
    var minBitrate: int
    var maxBitrate: int
    /** The bitrate last passed to the encoder, 0 before the first. */
    var encoderRate: int

    ghost function Limits(): A.Limits
      reads this
    {
      A.Limits(minBitrate, maxBitrate)
    }

    /** The allocator with this stream as its only audio client; other streams on the same
        allocator take part as other observers. */
    ghost function View(): A.System
      reads this, allocator, allocator.limitObserver
    {
      A.System(allocator.Model(), map[id := Limits()])
    }

    ghost predicate Valid()
      reads this, allocator, allocator.limitObserver
    {
      allocator.Valid() && A.Valid(View())
    }

    /** What this stream hears when the event happens passes its check. */
    ghost predicate HearsSafely(e: M.Event, limits: A.Limits)
      requires allocator.Valid() && M.Legal(e)
      reads this, allocator, allocator.limitObserver
    {
      var told := M.Rates(allocator.Model(), e);
      id in told ==> told[id] >= 0 && A.CheckPasses(limits, told[id])
    }

    constructor (id: ObserverId, allocator: BitrateAllocator, limits: A.Limits, reply: M.Reply)
      requires allocator.Valid() && !A.Registered(allocator.Model(), id) && limits.Legal() && M.Honest(reply)
      modifies allocator, allocator.limitObserver
      ensures this.id == id && this.allocator == allocator && Limits() == limits
      ensures Valid()
      ensures A.Valid(A.System(old(allocator.Model()), map[]))
      ensures View() == A.Step(A.System(old(allocator.Model()), map[]), A.Create(id, limits, reply))
      ensures A.Registered(allocator.Model(), id) <==> limits.Configured()
    {
      this.id, this.allocator := id, allocator;
      minBitrate, maxBitrate, encoderRate := -1, -1, 0;
      new;
      ghost var before := A.System(allocator.Model(), map[]);
      A.StepKeepsValid(before, A.Create(id, limits, reply));
      A.StepSafe(before, A.Create(id, limits, reply));
      A.StepRegisters(before, A.Create(id, limits, reply), id);
      assert map[][id := limits] == map[id := limits];
      ReconfigureBitrateObserver(limits, reply);
      minBitrate, maxBitrate := limits.minBitrate, limits.maxBitrate;
    }

    /** The allocator may give more than the maximum, or nothing; the encoder gets neither. */
    method OnBitrateUpdated(rate: nat) returns (protection: nat)
      requires 0 <= minBitrate <= maxBitrate
      requires A.CheckPasses(Limits(), rate)
      modifies this`encoderRate
      ensures minBitrate <= encoderRate <= maxBitrate
      ensures minBitrate <= rate <= maxBitrate ==> encoderRate == rate
      ensures rate == 0 ==> encoderRate == minBitrate
      ensures rate > maxBitrate ==> encoderRate == maxBitrate
      ensures encoderRate == A.EncoderRate(Limits(), rate)
      ensures protection == 0
    {
      var bitrate: int := rate;
      if bitrate == 0 {
        bitrate := minBitrate;
      }
      assert bitrate >= minBitrate;
      if bitrate > maxBitrate {
        bitrate := maxBitrate;
      }
      encoderRate := bitrate;
      protection := 0;
    }

    method ConfigureBitrateObserver(limits: A.Limits, reply: M.Reply)
      requires allocator.Valid() && limits.Configured() && limits.Legal() && M.Honest(reply)
      requires HearsSafely(A.Register(id, limits, reply), limits)
      modifies this, allocator, allocator.limitObserver
      ensures allocator.Valid() && Limits() == limits
      ensures allocator.Model() == M.Step(old(allocator.Model()), A.Register(id, limits, reply))
      ensures encoderRate != old(encoderRate) ==> minBitrate <= encoderRate <= maxBitrate
    {
      minBitrate, maxBitrate := limits.minBitrate, limits.maxBitrate;
      var told := allocator.AddObserver(id, minBitrate, maxBitrate, 0, true, reply);
      if id in told {
        var _ := OnBitrateUpdated(told[id]);
      }
    }

    method RemoveBitrateObserver()
      requires allocator.Valid()
      modifies allocator, allocator.limitObserver
      ensures allocator.Valid()
      ensures allocator.Model() == M.Step(old(allocator.Model()), M.ObserverRemoved(id))
    {
      allocator.RemoveObserver(id);
    }

    method ReconfigureBitrateObserver(limits: A.Limits, reply: M.Reply)
      requires allocator.Valid() && limits.Legal() && M.Honest(reply)
      requires limits != Limits() && limits.Configured() ==> HearsSafely(A.Register(id, limits, reply), limits)
      modifies this, allocator, allocator.limitObserver
      ensures allocator.Valid()
      ensures var request := A.Change(id, old(Limits()), limits, reply);
              allocator.Model()
              == if request == [] then old(allocator.Model()) else M.Step(old(allocator.Model()), request[0])
      ensures encoderRate != old(encoderRate) ==> limits.minBitrate <= encoderRate <= limits.maxBitrate
    {
      if minBitrate == limits.minBitrate && maxBitrate == limits.maxBitrate {
        return;
      }
      if limits.minBitrate != -1 && limits.maxBitrate != -1 {
        ConfigureBitrateObserver(limits, reply);
      } else {
        RemoveBitrateObserver();
      }
    }

    method Start(reply: M.Reply)
      requires Valid() && M.Honest(reply)
      modifies this, allocator, allocator.limitObserver
      ensures Valid() && View() == A.Step(old(View()), A.Start(id, reply))
      ensures Limits().Configured() ==> A.Registered(allocator.Model(), id)
      ensures encoderRate != old(encoderRate) ==> minBitrate <= encoderRate <= maxBitrate
    {
      A.StepKeepsValid(View(), A.Start(id, reply));
      A.StepSafe(View(), A.Start(id, reply));
      A.StepRegisters(View(), A.Start(id, reply), id);
      if minBitrate != -1 && maxBitrate != -1 {
        ConfigureBitrateObserver(A.Limits(minBitrate, maxBitrate), reply);
      }
    }

    method Stop()
      requires Valid()
      modifies allocator, allocator.limitObserver
      ensures Valid() && View() == A.Step(old(View()), A.Stop(id))
      ensures !A.Registered(allocator.Model(), id)
    {
      A.StepKeepsValid(View(), A.Stop(id));
      A.StepRegisters(View(), A.Stop(id), id);
      RemoveBitrateObserver();
    }

    method Reconfigure(limits: A.Limits, reply: M.Reply)
      requires Valid() && limits.Legal() && M.Honest(reply)
      modifies this, allocator, allocator.limitObserver
      ensures Valid() && View() == A.Step(old(View()), A.Reconfigure(id, limits, reply))
      ensures A.Registered(allocator.Model(), id) <==>
              if limits == old(Limits()) then old(A.Registered(allocator.Model(), id)) else limits.Configured()
      ensures encoderRate != old(encoderRate) ==> minBitrate <= encoderRate <= maxBitrate
    {
      A.ReconfigureOne(allocator.Model(), id, Limits(), limits, reply);
      A.StepRegisters(View(), A.Reconfigure(id, limits, reply), id);
      ReconfigureBitrateObserver(limits, reply);
      minBitrate, maxBitrate := limits.minBitrate, limits.maxBitrate;
    }
  }
}
