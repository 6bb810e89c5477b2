/** RTCP demultiplexing: sinks listen to a sender SSRC, to an RSID that is not resolved yet,
    or to everything. A multimap is kept as a list of pairs in order of insertion.
 */
module DemuxerMachine {
  import opened Options

  type Ssrc = int
  type Sink = int
  type Multimap<!K> = seq<(K, Sink)>

  datatype State = State(ssrcSinks: Multimap<Ssrc>, rsidSinks: Multimap<string>, broadcastSinks: seq<Sink>)

  const INITIAL := State([], [], [])

  datatype Event =
    | AddSink(ssrc: Ssrc, sink: Sink)
    | AddRsidSink(rsid: string, sink: Sink)
    | AddBroadcastSink(sink: Sink)
    | RemoveSink(sink: Sink)
    | RemoveBroadcastSink(sink: Sink)
    | RsidResolved(rsid: string, ssrc: Ssrc)

  // ---------- multimaps ----------

  /** The sinks of a key, in order of insertion. */
  function Range<K(==)>(m: Multimap<K>, key: K): seq<Sink> {
    if m == [] then []
    else (if m[0].0 == key then [m[0].1] else []) + Range(m[1..], key)
  }

  function WithoutKey<K(==)>(m: Multimap<K>, key: K): Multimap<K> {
    if m == [] then []
    else (if m[0].0 == key then [] else [m[0]]) + WithoutKey(m[1..], key)
  }

  function WithoutSink<K>(m: Multimap<K>, sink: Sink): Multimap<K> {
    if m == [] then []
    else (if m[0].1 == sink then [] else [m[0]]) + WithoutSink(m[1..], sink)
  }

  function Drop(sinks: seq<Sink>, sink: Sink): seq<Sink> {
    if sinks == [] then [] else if sinks[0] == sink then sinks[1..] else [sinks[0]] + Drop(sinks[1..], sink)
  }

  predicate HasSink<K>(m: Multimap<K>, sink: Sink) {
    exists i :: 0 <= i < |m| && m[i].1 == sink
  }

  predicate NoRepeats<T(==)>(s: seq<T>) {
    forall i, j :: 0 <= i < j < |s| ==> s[i] != s[j]
  }

  /** Each sink of a resolved RSID joins the SSRC, unless it is there already. */
  function Join(m: Multimap<Ssrc>, ssrc: Ssrc, sinks: seq<Sink>): Multimap<Ssrc>
    decreases |sinks|
  {
    if sinks == [] then m
    else Join(if (ssrc, sinks[0]) in m then m else m + [(ssrc, sinks[0])], ssrc, sinks[1..])
  }

  // ---------- transitions ----------

  /** The checks of the operations. */
  predicate Enabled(s: State, e: Event) {
    match e
    case AddSink(ssrc, sink) => sink !in s.broadcastSinks && (ssrc, sink) !in s.ssrcSinks
    case AddRsidSink(rsid, sink) => sink !in s.broadcastSinks && (rsid, sink) !in s.rsidSinks
    case AddBroadcastSink(sink) =>
      !HasSink(s.ssrcSinks, sink) && !HasSink(s.rsidSinks, sink) && sink !in s.broadcastSinks
    case RemoveSink(sink) => HasSink(s.ssrcSinks, sink) || HasSink(s.rsidSinks, sink)
    case RemoveBroadcastSink(sink) => sink in s.broadcastSinks
    case RsidResolved(_, _) => true
  }

  function Step(s: State, e: Event): State {
    match e
    case AddSink(ssrc, sink) => s.(ssrcSinks := s.ssrcSinks + [(ssrc, sink)])
    case AddRsidSink(rsid, sink) => s.(rsidSinks := s.rsidSinks + [(rsid, sink)])
    case AddBroadcastSink(sink) => s.(broadcastSinks := s.broadcastSinks + [sink])
    case RemoveSink(sink) =>
      s.(ssrcSinks := WithoutSink(s.ssrcSinks, sink), rsidSinks := WithoutSink(s.rsidSinks, sink))
    case RemoveBroadcastSink(sink) => s.(broadcastSinks := Drop(s.broadcastSinks, sink))
    case RsidResolved(rsid, ssrc) =>
      s.(ssrcSinks := Join(s.ssrcSinks, ssrc, Range(s.rsidSinks, rsid)),
         rsidSinks := WithoutKey(s.rsidSinks, rsid))
  }

  /** The sinks a packet is passed to, in order. */
  function Deliveries(s: State, sender: Option<Ssrc>): seq<Sink> {
    (if sender.Some? then Range(s.ssrcSinks, sender.value) else []) + s.broadcastSinks
  }

  // ---------- the reference: sets of associations ----------

  datatype Sets = Sets(ssrcSinks: set<(Ssrc, Sink)>, rsidSinks: set<(string, Sink)>, broadcastSinks: set<Sink>)

  function AsSets(s: State): Sets {
    Sets((set p | p in s.ssrcSinks), (set p | p in s.rsidSinks), (set x | x in s.broadcastSinks))
  }

  function SetStep(s: Sets, e: Event): Sets {
    match e
    case AddSink(ssrc, sink) => s.(ssrcSinks := s.ssrcSinks + {(ssrc, sink)})
    case AddRsidSink(rsid, sink) => s.(rsidSinks := s.rsidSinks + {(rsid, sink)})
    case AddBroadcastSink(sink) => s.(broadcastSinks := s.broadcastSinks + {sink})
    case RemoveSink(sink) =>
      s.(ssrcSinks := (set p | p in s.ssrcSinks && p.1 != sink),
         rsidSinks := (set p | p in s.rsidSinks && p.1 != sink))
    case RemoveBroadcastSink(sink) => s.(broadcastSinks := s.broadcastSinks - {sink})
    case RsidResolved(rsid, ssrc) =>
      s.(ssrcSinks := s.ssrcSinks + (set p | p in s.rsidSinks && p.0 == rsid :: (ssrc, p.1)),
         rsidSinks := (set p | p in s.rsidSinks && p.0 != rsid))
  }

  // ---------- the invariant ----------

  ghost predicate Valid(s: State) {
    && NoRepeats(s.ssrcSinks) && NoRepeats(s.rsidSinks) && NoRepeats(s.broadcastSinks)
    && (forall p :: p in s.ssrcSinks ==> p.1 !in s.broadcastSinks)
    && (forall p :: p in s.rsidSinks ==> p.1 !in s.broadcastSinks)
  }

  lemma {:induction false} WithoutSinkMeaning<K>(m: Multimap<K>, sink: Sink)
    requires NoRepeats(m)
    ensures NoRepeats(WithoutSink(m, sink))
    ensures forall p :: p in WithoutSink(m, sink) <==> p in m && p.1 != sink
  {
    if m != [] {
      WithoutSinkMeaning(m[1..], sink);
      assert m == [m[0]] + m[1..];
      assert m[0] !in m[1..];
      assert m[0] !in WithoutSink(m[1..], sink);
    }
  }

  lemma {:induction false} WithoutKeyMeaning<K>(m: Multimap<K>, key: K)
    requires NoRepeats(m)
    ensures NoRepeats(WithoutKey(m, key))
    ensures forall p :: p in WithoutKey(m, key) <==> p in m && p.0 != key
  {
    if m != [] {
      WithoutKeyMeaning(m[1..], key);
      assert m == [m[0]] + m[1..];
      assert m[0] !in m[1..];
      assert m[0] !in WithoutKey(m[1..], key);
    }
  }

  lemma {:induction false} RangeMeaning<K>(m: Multimap<K>, key: K)
    requires NoRepeats(m)
    ensures NoRepeats(Range(m, key))
    ensures forall x :: x in Range(m, key) <==> (key, x) in m
  {
    if m != [] {
      RangeMeaning(m[1..], key);
      assert m == [m[0]] + m[1..];
      assert m[0] !in m[1..];
      assert m[0].0 == key ==> m[0] == (key, m[0].1);
    }
  }

  lemma {:induction false} JoinMeaning(m: Multimap<Ssrc>, ssrc: Ssrc, sinks: seq<Sink>)
    requires NoRepeats(m)
    ensures NoRepeats(Join(m, ssrc, sinks))
    ensures forall p :: p in Join(m, ssrc, sinks) <==> p in m || (p.0 == ssrc && p.1 in sinks)
    decreases |sinks|
  {
    if sinks != [] {
      var next := if (ssrc, sinks[0]) in m then m else m + [(ssrc, sinks[0])];
      assert forall p :: p in next <==> p in m || p == (ssrc, sinks[0]);
      JoinMeaning(next, ssrc, sinks[1..]);
      assert sinks == [sinks[0]] + sinks[1..];
    }
  }

  lemma JoinAt(m: Multimap<Ssrc>, ssrc: Ssrc, sinks: seq<Sink>, i: nat)
    requires i < |sinks|
    ensures Join(m, ssrc, sinks[i..])
         == Join(if (ssrc, sinks[i]) in m then m else m + [(ssrc, sinks[i])], ssrc, sinks[i + 1..])
  {
    assert sinks[i..][1..] == sinks[i + 1..];
  }

  lemma {:induction false} DropMeaning(sinks: seq<Sink>, sink: Sink)
    requires NoRepeats(sinks)
    ensures NoRepeats(Drop(sinks, sink))
    ensures forall x :: x in Drop(sinks, sink) <==> x in sinks && x != sink
  {
    if sinks != [] {
      DropMeaning(sinks[1..], sink);
      assert sinks == [sinks[0]] + sinks[1..];
      assert sinks[0] !in sinks[1..];
    }
  }

  lemma {:induction false} DropAt(sinks: seq<Sink>, i: nat)
    requires i < |sinks| && sinks[i] !in sinks[..i]
    ensures Drop(sinks, sinks[i]) == sinks[..i] + sinks[i + 1..]
  {
    if i > 0 {
      assert sinks[..i][0] == sinks[0] && sinks[..i][1..] == sinks[1..][..i - 1];
      DropAt(sinks[1..], i - 1);
      assert sinks[..i] == [sinks[0]] + sinks[1..][..i - 1];
    }
  }

  lemma DropAsSet(sinks: seq<Sink>, sink: Sink)
    requires NoRepeats(sinks)
    ensures (set x | x in Drop(sinks, sink)) == (set x | x in sinks) - {sink}
  {
    DropMeaning(sinks, sink);
    var dropped := Drop(sinks, sink);
    assert forall x :: x in dropped <==> x in sinks && x != sink;
  }

  lemma AddMeaning(s: State, e: Event)
    requires Valid(s) && Enabled(s, e) && (e.AddSink? || e.AddRsidSink? || e.AddBroadcastSink?)
    ensures Valid(Step(s, e)) && AsSets(Step(s, e)) == SetStep(AsSets(s), e)
  {
    match e
    case AddSink(ssrc, sink) => AppendMember(s.ssrcSinks, (ssrc, sink));
    case AddRsidSink(rsid, sink) => AppendMember(s.rsidSinks, (rsid, sink));
    case AddBroadcastSink(sink) =>
      AppendMember(s.broadcastSinks, sink);
      NotHeard(s.ssrcSinks, sink);
      NotHeard(s.rsidSinks, sink);
  }

  lemma DroppedMeaning(s: State, sink: Sink)
    requires Valid(s)
    ensures var after := s.(broadcastSinks := Drop(s.broadcastSinks, sink));
            Valid(after) && AsSets(after) == AsSets(s).(broadcastSinks := AsSets(s).broadcastSinks - {sink})
  {
    var kept := Drop(s.broadcastSinks, sink);
    DropMeaning(s.broadcastSinks, sink);
    DropAsSet(s.broadcastSinks, sink);
    assert forall x :: x in kept ==> x in s.broadcastSinks;
  }

  /** What a step makes of the associations, list by list. */
  lemma StepMeaning(s: State, e: Event)
    requires Valid(s) && Enabled(s, e)
    ensures Valid(Step(s, e))
    ensures AsSets(Step(s, e)) == SetStep(AsSets(s), e)
  {
    match e
    case RemoveSink(sink) =>
      WithoutSinkMeaning(s.ssrcSinks, sink);
      WithoutSinkMeaning(s.rsidSinks, sink);
    case RemoveBroadcastSink(sink) => DroppedMeaning(s, sink);
    case RsidResolved(rsid, ssrc) => ResolvedMeaning(s, rsid, ssrc);
    case _ => AddMeaning(s, e);
  }

  lemma AppendMember<T>(s: seq<T>, x: T)
    ensures forall y :: y in s + [x] <==> y in s || y == x
    ensures NoRepeats(s) && x !in s ==> NoRepeats(s + [x])
  {
  }

  lemma NotHeard<K>(m: Multimap<K>, sink: Sink)
    requires !HasSink(m, sink)
    ensures forall p :: p in m ==> p.1 != sink
  {
    forall p | p in m ensures p.1 != sink {
      var i :| 0 <= i < |m| && m[i] == p;
    }
  }

  /** Resolving an RSID moves all its sinks to the SSRC. */
  lemma ResolvedMeaning(s: State, rsid: string, ssrc: Ssrc)
    requires Valid(s)
    ensures Valid(Step(s, RsidResolved(rsid, ssrc)))
    ensures AsSets(Step(s, RsidResolved(rsid, ssrc))) == SetStep(AsSets(s), RsidResolved(rsid, ssrc))
  {
    WithoutKeyMeaning(s.rsidSinks, rsid);
    assert Valid(Step(s, RsidResolved(rsid, ssrc))) by {
      RangeMeaning(s.rsidSinks, rsid);
      JoinMeaning(s.ssrcSinks, ssrc, Range(s.rsidSinks, rsid));
    }
    JoinAsSet(s.ssrcSinks, ssrc, s.rsidSinks, rsid);
    var rest := WithoutKey(s.rsidSinks, rsid);
    assert (set p | p in rest) == (set p | p in (set q | q in s.rsidSinks) && p.0 != rsid);
  }

  lemma JoinAsSet(m: Multimap<Ssrc>, ssrc: Ssrc, waiting: Multimap<string>, rsid: string)
    requires NoRepeats(m) && NoRepeats(waiting)
    ensures (set p | p in Join(m, ssrc, Range(waiting, rsid)))
         == (set p | p in m) + (set p | p in (set q | q in waiting) && p.0 == rsid :: (ssrc, p.1))
  {
    var joined := Join(m, ssrc, Range(waiting, rsid));
    var moved := set p | p in (set q | q in waiting) && p.0 == rsid :: (ssrc, p.1);
    RangeMeaning(waiting, rsid);
    JoinMeaning(m, ssrc, Range(waiting, rsid));
    forall p ensures p in joined <==> p in m || p in moved {
      if p.0 == ssrc && (rsid, p.1) in waiting {
        var q := (rsid, p.1);
        assert q in waiting && q.0 == rsid;
        assert (ssrc, q.1) in moved;
        assert p == (ssrc, q.1);
      }
      if p in moved {
        var q :| q in waiting && q.0 == rsid && p == (ssrc, q.1);
        assert q == (rsid, p.1);
      }
    }
  }

  /** A packet reaches exactly the sinks of its sender and the broadcast sinks, each once. */
  lemma DeliveryExact(s: State, sender: Option<Ssrc>)
    requires Valid(s)
    ensures NoRepeats(Deliveries(s, sender))
    ensures forall x :: x in Deliveries(s, sender) <==>
                        (sender.Some? && (sender.value, x) in s.ssrcSinks) || x in s.broadcastSinks
  {
    if sender.Some? {
      RangeMeaning(s.ssrcSinks, sender.value);
      var heard := Range(s.ssrcSinks, sender.value);
      forall i, j | 0 <= i < |heard| && 0 <= j < |s.broadcastSinks| ensures heard[i] != s.broadcastSinks[j] {
        assert heard[i] in heard;
      }
    }
  }

  // ---------- the order of delivery ----------

  /** The sinks waiting for an RSID, in order. */
  function Waiting(s: State, rsid: string): seq<Sink> { Range(s.rsidSinks, rsid) }

  /** The sinks that listen to an SSRC, in order; the broadcast sinks come after them. */
  function Listening(s: State, ssrc: Ssrc): seq<Sink> { Range(s.ssrcSinks, ssrc) }

  lemma {:induction false} RangeAppend<K>(m: Multimap<K>, p: (K, Sink), key: K)
    ensures Range(m + [p], key) == Range(m, key) + if p.0 == key then [p.1] else []
  {
    if m == [] {
      assert m + [p] == [p] && [p][1..] == [];
    } else {
      RangeAppend(m[1..], p, key);
      assert (m + [p])[1..] == m[1..] + [p];
    }
  }

  lemma RangeCons<K>(p: (K, Sink), m: Multimap<K>, key: K)
    ensures Range([p] + m, key) == (if p.0 == key then [p.1] else []) + Range(m, key)
  {
    assert ([p] + m)[1..] == m;
  }

  lemma DropCons(x: Sink, sinks: seq<Sink>, sink: Sink)
    ensures Drop([x] + sinks, sink) == if x == sink then sinks else [x] + Drop(sinks, sink)
  {
    assert ([x] + sinks)[1..] == sinks;
  }

  lemma {:induction false} RangeWithoutSink<K>(m: Multimap<K>, sink: Sink, key: K)
    requires NoRepeats(m)
    ensures Range(WithoutSink(m, sink), key) == Drop(Range(m, key), sink)
  {
    if m != [] {
      var p, rest := m[0], m[1..];
      RangeWithoutSink(rest, sink, key);
      RangeCons(p, WithoutSink(rest, sink), key);
      DropCons(p.1, Range(rest, key), sink);
      assert [] + WithoutSink(rest, sink) == WithoutSink(rest, sink);
      assert [] + Range(rest, key) == Range(rest, key);
      if p == (key, sink) {
        RangeMeaning(rest, key);
        assert p !in rest;
        DropMissing(Range(rest, key), sink);
      }
    }
  }

  lemma {:induction false} DropMissing(sinks: seq<Sink>, sink: Sink)
    requires sink !in sinks
    ensures Drop(sinks, sink) == sinks
  {
    if sinks != [] {
      DropMissing(sinks[1..], sink);
    }
  }

  lemma {:induction false} RangeWithoutKey<K>(m: Multimap<K>, gone: K, key: K)
    ensures Range(WithoutKey(m, gone), key) == if key == gone then [] else Range(m, key)
  {
    if m != [] {
      RangeWithoutKey(m[1..], gone, key);
      RangeCons(m[0], WithoutKey(m[1..], gone), key);
      assert [] + WithoutKey(m[1..], gone) == WithoutKey(m[1..], gone);
      assert [] + Range(m[1..], key) == Range(m[1..], key);
    }
  }

  /** The new ones among `sinks`, in order. */
  function NotYet(sinks: seq<Sink>, heard: seq<Sink>): seq<Sink> {
    if sinks == [] then []
    else (if sinks[0] in heard then [] else [sinks[0]]) + NotYet(sinks[1..], heard)
  }

  lemma {:induction false} NotYetFrame(sinks: seq<Sink>, a: seq<Sink>, b: seq<Sink>)
    requires forall x :: x in sinks ==> (x in a <==> x in b)
    ensures NotYet(sinks, a) == NotYet(sinks, b)
  {
    if sinks != [] {
      var x, rest := sinks[0], sinks[1..];
      assert sinks == [x] + rest;
      NotYetFrame(rest, a, b);
      assert x in sinks;
      assert x in a <==> x in b;
      assert NotYet(sinks, a) == (if x in a then [] else [x]) + NotYet(rest, a);
    }
  }

  lemma JoinNext(m: Multimap<Ssrc>, ssrc: Ssrc, x: Sink, rest: seq<Sink>)
    requires NoRepeats(m) && x !in rest && (ssrc, x) !in m
    ensures NoRepeats(m + [(ssrc, x)])
    ensures NotYet(rest, Range(m + [(ssrc, x)], ssrc)) == NotYet(rest, Range(m, ssrc))
  {
    AppendMember(m, (ssrc, x));
    RangeAppend(m, (ssrc, x), ssrc);
    NotYetFrame(rest, Range(m, ssrc), Range(m + [(ssrc, x)], ssrc));
  }

  lemma {:induction false} RangeJoin(m: Multimap<Ssrc>, ssrc: Ssrc, sinks: seq<Sink>, key: Ssrc)
    requires NoRepeats(m) && NoRepeats(sinks)
    ensures Range(Join(m, ssrc, sinks), key)
         == Range(m, key) + if key == ssrc then NotYet(sinks, Range(m, ssrc)) else []
    decreases |sinks|
  {
    if sinks != [] {
      var x, rest := sinks[0], sinks[1..];
      RangeMeaning(m, ssrc);
      if (ssrc, x) in m {
        RangeJoin(m, ssrc, rest, key);
      } else {
        assert x !in rest;
        JoinNext(m, ssrc, x, rest);
        RangeAppend(m, (ssrc, x), key);
        RangeJoin(m + [(ssrc, x)], ssrc, rest, key);
      }
    }
  }

  /** Who waits or listens, and in which order: newcomers come last, removals and RSID
      resolutions keep the order of the others. */
  lemma StepOrder(s: State, e: Event, ssrc: Ssrc, rsid: string)
    requires Valid(s) && Enabled(s, e)
    ensures Listening(Step(s, e), ssrc) ==
            match e
            case AddSink(k, sink) => Listening(s, ssrc) + if k == ssrc then [sink] else []
            case RemoveSink(sink) => Drop(Listening(s, ssrc), sink)
            case RsidResolved(r, k) =>
              Listening(s, ssrc) + if k == ssrc then NotYet(Waiting(s, r), Listening(s, ssrc)) else []
            case _ => Listening(s, ssrc)
    ensures Waiting(Step(s, e), rsid) ==
            match e
            case AddRsidSink(k, sink) => Waiting(s, rsid) + if k == rsid then [sink] else []
            case RemoveSink(sink) => Drop(Waiting(s, rsid), sink)
            case RsidResolved(k, _) => if k == rsid then [] else Waiting(s, rsid)
            case _ => Waiting(s, rsid)
  {
    match e
    case AddSink(k, sink) => RangeAppend(s.ssrcSinks, (k, sink), ssrc);
    case AddRsidSink(k, sink) => RangeAppend(s.rsidSinks, (k, sink), rsid);
    case RemoveSink(sink) =>
      RangeWithoutSink(s.ssrcSinks, sink, ssrc);
      RangeWithoutSink(s.rsidSinks, sink, rsid);
    case RsidResolved(r, k) =>
      RangeMeaning(s.rsidSinks, r);
      RangeJoin(s.ssrcSinks, k, Waiting(s, r), ssrc);
      RangeWithoutKey(s.rsidSinks, r, rsid);
    case _ =>
  }

  /** A packet goes to the listeners first and then to the broadcast sinks, which are heard in
      order of their addition. */
  lemma BroadcastOrder(s: State, e: Event, sender: Option<Ssrc>)
    requires Valid(s) && Enabled(s, e)
    ensures sender.Some? ==> Listening(s, sender.value) <= Deliveries(s, sender)
    ensures Deliveries(s, None) ==
            Deliveries(s, sender)[if sender.Some? then |Listening(s, sender.value)| else 0..]
    ensures Deliveries(Step(s, e), None) ==
            match e
            case AddBroadcastSink(sink) => Deliveries(s, None) + [sink]
            case RemoveBroadcastSink(sink) => Drop(Deliveries(s, None), sink)
            case _ => Deliveries(s, None)
  {
    assert Deliveries(s, None) == s.broadcastSinks && Deliveries(Step(s, e), None) == Step(s, e).broadcastSinks;
  }

  // ---------- whole runs ----------

  ghost predicate EnabledRun(s: State, events: seq<Event>)
    decreases |events|
  {
    events == [] || (Enabled(s, events[0]) && EnabledRun(Step(s, events[0]), events[1..]))
  }

  function Run(s: State, events: seq<Event>): State
    decreases |events|
  {
    if events == [] then s else Run(Step(s, events[0]), events[1..])
  }

  function SetRun(s: Sets, events: seq<Event>): Sets
    decreases |events|
  {
    if events == [] then s else SetRun(SetStep(s, events[0]), events[1..])
  }

  lemma {:induction false} RunRefinesSets(s: State, events: seq<Event>)
    requires Valid(s) && EnabledRun(s, events)
    ensures Valid(Run(s, events))
    ensures AsSets(Run(s, events)) == SetRun(AsSets(s), events)
    decreases |events|
  {
    if events != [] {
      StepMeaning(s, events[0]);
      RunRefinesSets(Step(s, events[0]), events[1..]);
    }
  }

  /** After every run a packet reaches exactly the sinks that the run's associations name,
      each of them once. */
  lemma RunDeliversExactly(events: seq<Event>, sender: Option<Ssrc>)
    requires EnabledRun(INITIAL, events)
    ensures var sets := SetRun(Sets({}, {}, {}), events);
            var heard := Deliveries(Run(INITIAL, events), sender);
            && NoRepeats(heard)
            && forall x :: x in heard <==>
                           (sender.Some? && (sender.value, x) in sets.ssrcSinks) || x in sets.broadcastSinks
  {
    var s := Run(INITIAL, events);
    assert AsSets(INITIAL) == Sets({}, {}, {});
    RunRefinesSets(INITIAL, events);
    DeliveryExact(s, sender);
    assert forall p :: p in AsSets(s).ssrcSinks <==> p in s.ssrcSinks;
  }
}

/** The demultiplexer object. */
module RtcpDemuxers {
  import opened Options
  import M = DemuxerMachine

  class RtcpDemuxer {
    var ssrcSinks: M.Multimap<M.Ssrc>
    var rsidSinks: M.Multimap<string>
    var broadcastSinks: seq<M.Sink>

    ghost function Model(): M.State
      reads this
    {
      M.State(ssrcSinks, rsidSinks, broadcastSinks)
    }

    ghost predicate Valid()
      reads this
    {
      M.Valid(Model())
    }

    constructor ()
      ensures Valid() && Model() == M.INITIAL
    {
      ssrcSinks, rsidSinks, broadcastSinks := [], [], [];
    }

    method AddSink(ssrc: M.Ssrc, sink: M.Sink)
      requires Valid() && M.Enabled(Model(), M.AddSink(ssrc, sink))
      modifies this`ssrcSinks
      ensures Valid() && Model() == M.Step(old(Model()), M.AddSink(ssrc, sink))
    {
      M.StepMeaning(Model(), M.AddSink(ssrc, sink));
      ssrcSinks := ssrcSinks + [(ssrc, sink)];
    }

    method AddRsidSink(rsid: string, sink: M.Sink)
      requires Valid() && M.Enabled(Model(), M.AddRsidSink(rsid, sink))
      modifies this`rsidSinks
      ensures Valid() && Model() == M.Step(old(Model()), M.AddRsidSink(rsid, sink))
    {
      M.StepMeaning(Model(), M.AddRsidSink(rsid, sink));
      rsidSinks := rsidSinks + [(rsid, sink)];
    }

    method AddBroadcastSink(sink: M.Sink)
      requires Valid() && M.Enabled(Model(), M.AddBroadcastSink(sink))
      modifies this`broadcastSinks
      ensures Valid() && Model() == M.Step(old(Model()), M.AddBroadcastSink(sink))
    {
      M.StepMeaning(Model(), M.AddBroadcastSink(sink));
      broadcastSinks := broadcastSinks + [sink];
    }

    method RemoveSink(sink: M.Sink)
      requires Valid() && M.Enabled(Model(), M.RemoveSink(sink))
      modifies this`ssrcSinks, this`rsidSinks
      ensures Valid() && Model() == M.Step(old(Model()), M.RemoveSink(sink))
    {
      M.StepMeaning(Model(), M.RemoveSink(sink));
      ssrcSinks := RemoveFromMultimapByValue(ssrcSinks, sink);
      rsidSinks := RemoveFromMultimapByValue(rsidSinks, sink);
    }

    static method RemoveFromMultimapByValue<K>(m: M.Multimap<K>, sink: M.Sink) returns (rest: M.Multimap<K>)
      ensures rest == M.WithoutSink(m, sink)
    {
      rest := [];
      for i := 0 to |m|
        invariant rest + M.WithoutSink(m[i..], sink) == M.WithoutSink(m, sink)
      {
        ghost var before, tail := rest, M.WithoutSink(m[i + 1..], sink);
        assert m[i..][1..] == m[i + 1..];
        if m[i].1 != sink {
          rest := rest + [m[i]];
          assert rest + tail == before + ([m[i]] + tail);
        } else {
          assert [] + tail == tail;
        }
      }
    }

    method RemoveBroadcastSink(sink: M.Sink)
      requires Valid() && M.Enabled(Model(), M.RemoveBroadcastSink(sink))
      modifies this`broadcastSinks
      ensures Valid() && Model() == M.Step(old(Model()), M.RemoveBroadcastSink(sink))
    {
      M.StepMeaning(Model(), M.RemoveBroadcastSink(sink));
      var i := 0;
      while broadcastSinks[i] != sink
        invariant 0 <= i < |broadcastSinks| && broadcastSinks == old(broadcastSinks)
        invariant sink !in broadcastSinks[..i]
        decreases |broadcastSinks| - i
      {
        i := i + 1;
      }
      M.DropAt(broadcastSinks, i);
      broadcastSinks := broadcastSinks[..i] + broadcastSinks[i + 1..];
    }

    /** `sender` is the packet's sender SSRC, if it has one. */
    method OnRtcpPacket(sender: Option<M.Ssrc>) returns (notified: seq<M.Sink>)
      requires Valid()
      ensures notified == M.Deliveries(Model(), sender)
      ensures M.NoRepeats(notified)
      ensures forall x :: x in notified <==>
                          (sender.Some? && (sender.value, x) in ssrcSinks) || x in broadcastSinks
    {
      M.DeliveryExact(Model(), sender);
      notified := [];
      if sender.Some? {
        notified := EqualRange(ssrcSinks, sender.value);
      }
      ghost var keyed := notified;
      for i := 0 to |broadcastSinks|
        invariant notified == keyed + broadcastSinks[..i]
      {
        notified := notified + [broadcastSinks[i]];
      }
    }

    /** Every call of AddSink here meets AddSink's checks. */
    method OnRsidResolved(rsid: string, ssrc: M.Ssrc)
      requires Valid()
      modifies this`ssrcSinks, this`rsidSinks
      ensures Valid() && Model() == M.Step(old(Model()), M.RsidResolved(rsid, ssrc))
    {
      M.StepMeaning(Model(), M.RsidResolved(rsid, ssrc));
      var sinks := EqualRange(rsidSinks, rsid);
      M.RangeMeaning(rsidSinks, rsid);
      for i := 0 to |sinks|
        invariant Valid() && rsidSinks == old(rsidSinks)
        invariant M.Join(ssrcSinks, ssrc, sinks[i..]) == M.Join(old(ssrcSinks), ssrc, sinks)
      {
        M.JoinAt(ssrcSinks, ssrc, sinks, i);
        if (ssrc, sinks[i]) !in ssrcSinks {
          assert sinks[i] in sinks && (rsid, sinks[i]) in rsidSinks;
          AddSink(ssrc, sinks[i]);
        }
      }
      rsidSinks := EraseKey(rsidSinks, rsid);
    }

    static method EqualRange<K(==)>(m: M.Multimap<K>, key: K) returns (sinks: seq<M.Sink>)
      ensures sinks == M.Range(m, key)
    {
      sinks := [];
      for i := 0 to |m|
        invariant sinks + M.Range(m[i..], key) == M.Range(m, key)
      {
        ghost var before, tail := sinks, M.Range(m[i + 1..], key);
        assert m[i..][1..] == m[i + 1..];
        if m[i].0 == key {
          sinks := sinks + [m[i].1];
          assert sinks + tail == before + ([m[i].1] + tail);
        } else {
          assert [] + tail == tail;
        }
      }
    }

    static method EraseKey<K(==)>(m: M.Multimap<K>, key: K) returns (rest: M.Multimap<K>)
      ensures rest == M.WithoutKey(m, key)
    {
      rest := [];
      for i := 0 to |m|
        invariant rest + M.WithoutKey(m[i..], key) == M.WithoutKey(m, key)
      {
        ghost var before, tail := rest, M.WithoutKey(m[i + 1..], key);
        assert m[i..][1..] == m[i + 1..];
        if m[i].0 != key {
          rest := rest + [m[i]];
          assert rest + tail == before + ([m[i]] + tail);
        } else {
          assert [] + tail == tail;
        }
      }
    }
  }
}
