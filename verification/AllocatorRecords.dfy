/** What an operation of the allocator does to each record, in the record's own fields, and
    what the limits and bitrates that it keeps are, over whole runs.
 */
module AllocatorRecords {
  import opened EvenShares
  import opened Observers
  import opened AllocationRules
  import opened AllocatorMachine

  // ---------- telling an observer its rate ----------

  predicate SameLimits(a: Config, b: Config) {
    && a.observer == b.observer && a.minBitrate == b.minBitrate && a.maxBitrate == b.maxBitrate
    && a.padUp == b.padUp && a.enforceMin == b.enforceMin
  }

  /** The record holds the rate its observer was told and, if that is positive, the part of it
      that the observer left to media; otherwise the media ratio stays at `ratio`. */
  ghost predicate Answered(c: Config, rate: int, ratio: real, reply: Reply) {
    && c.granted == rate
    && if rate > 0 then c.mediaRatio * rate as real == (rate - reply(c.observer, rate)) as real
       else c.mediaRatio == ratio
  }

  lemma ToldAnswers(c: Config, rate: nat, reply: Reply)
    requires Honest(reply)
    ensures SameLimits(c, Told(c, rate, reply)) && Answered(Told(c, rate, reply), rate, c.mediaRatio, reply)
  {
  }

  /** Every record is told, holds its rate and keeps its limits. */
  ghost predicate AllTold(before: seq<Config>, after: seq<Config>, told: Allocation, reply: Reply) {
    && |after| == |before| && Covers(before, told)
    && forall i :: 0 <= i < |before| ==>
         && SameLimits(before[i], after[i])
         && Answered(after[i], told[before[i].observer], before[i].mediaRatio, reply)
  }

  lemma TellAllAnswers(cs: seq<Config>, alloc: Allocation, reply: Reply)
    requires Usable(cs, alloc) && Honest(reply)
    ensures AllTold(cs, TellAll(cs, alloc, reply), alloc, reply)
  {
    forall i | 0 <= i < |cs|
      ensures var after := TellAll(cs, alloc, reply)[i];
              SameLimits(cs[i], after) && Answered(after, alloc[cs[i].observer], cs[i].mediaRatio, reply)
    {
      ToldAnswers(cs[i], alloc[cs[i].observer], reply);
    }
  }

  lemma ReallocateAnswers(cs: seq<Config>, bitrate: nat, reply: Reply)
    requires Sane(cs) && Honest(reply)
    ensures AllTold(cs, Reallocate(cs, bitrate, reply), Allocate(cs, bitrate), reply)
  {
    AllocateCovers(cs, bitrate);
    TellAllAnswers(cs, Allocate(cs, bitrate), reply);
  }

  /** A network update in terms of records. */
  lemma NetworkRecords(s: State, bitrate: nat, reply: Reply)
    requires Valid(s) && Honest(reply)
    ensures var e := NetworkChanged(bitrate, reply);
            AllTold(s.configs, Step(s, e).configs, Rates(s, e), reply)
  {
    ReallocateAnswers(s.configs, bitrate, reply);
  }

  // ---------- registering ----------

  ghost predicate Present(cs: seq<Config>, observer: ObserverId) {
    exists i :: 0 <= i < |cs| && cs[i].observer == observer
  }

  /** One record, and no other, is the observer's. */
  ghost predicate Once(cs: seq<Config>, observer: ObserverId, k: nat) {
    k < |cs| && forall i :: 0 <= i < |cs| ==> (cs[i].observer == observer <==> i == k)
  }

  predicate AsPassed(c: Config, e: Event)
    requires e.ObserverAdded?
  {
    && c.observer == e.observer && c.minBitrate == e.minBitrate && c.maxBitrate == e.maxBitrate
    && c.padUp == e.padUp && c.enforceMin == e.enforceMin
  }

  /** The observer has exactly one record, with the values passed, which is the last if it is
      new; every other record keeps its place and its limits. */
  ghost predicate Enrolled(before: seq<Config>, after: seq<Config>, e: Event)
    requires e.ObserverAdded?
  {
    && |after| == |before| + (if Present(before, e.observer) then 0 else 1)
    && (exists k: nat :: Once(after, e.observer, k) && AsPassed(after[k], e))
    && forall i :: 0 <= i < |before| ==>
         && after[i].observer == before[i].observer
         && (before[i].observer != e.observer ==> SameLimits(before[i], after[i]))
  }

  /** No record of anybody else appears. */
  lemma EnrolledOthers(before: seq<Config>, after: seq<Config>, e: Event, i: nat)
    requires e.ObserverAdded? && Enrolled(before, after, e) && i < |after| && after[i].observer != e.observer
    ensures i < |before| && before[i].observer == after[i].observer
  {
    var k: nat :| Once(after, e.observer, k) && AsPassed(after[k], e);
    assert k < |before| ==> before[k].observer == e.observer;
  }

  /** The media ratio of a record before a registration; a new one starts without protection. */
  function RatioBefore(before: seq<Config>, i: nat): real {
    if i < |before| then before[i].mediaRatio else 1.0
  }

  lemma RegisterEnrolls(cs: seq<Config>, e: Event)
    requires Sane(cs) && e.ObserverAdded?
    ensures Enrolled(cs, Register(cs, e), e)
    ensures forall i :: 0 <= i < |Register(cs, e)| ==>
              && Register(cs, e)[i].mediaRatio == RatioBefore(cs, i)
              && Register(cs, e)[i].granted == if i < |cs| then cs[i].granted else -1
  {
    var k, after := Find(cs, e.observer), Register(cs, e);
    assert Present(cs, e.observer) <==> k < |cs|;
    assert Once(after, e.observer, k) && AsPassed(after[k], e);
  }

  lemma EnrolledFrame(before: seq<Config>, middle: seq<Config>, after: seq<Config>, e: Event)
    requires e.ObserverAdded? && Enrolled(before, middle, e) && |after| == |middle|
    requires forall i :: 0 <= i < |middle| ==> SameLimits(middle[i], after[i])
    ensures Enrolled(before, after, e)
  {
    var k: nat :| Once(middle, e.observer, k) && AsPassed(middle[k], e);
    assert Once(after, e.observer, k) && AsPassed(after[k], e);
  }

  lemma AddedRecordsDown(s: State, e: Event)
    requires Valid(s) && Legal(e) && e.ObserverAdded? && s.lastBitrate == 0
    ensures var after := Step(s, e).configs;
            && Enrolled(s.configs, after, e)
            && (forall i :: 0 <= i < |after| ==>
                 && after[i].mediaRatio == RatioBefore(s.configs, i)
                 && after[i].granted == if i < |s.configs| then s.configs[i].granted else -1)
            && Rates(s, e) == map[e.observer := 0]
  {
    RegisterEnrolls(s.configs, e);
  }

  lemma EnrolledServed(cs: seq<Config>, bitrate: nat, e: Event)
    requires Sane(cs) && e.ObserverAdded? && bitrate > 0
    requires exists k: nat :: Once(cs, e.observer, k) && AsPassed(cs[k], e)
    ensures e.observer in Allocate(cs, bitrate)
    ensures e.enforceMin ==> Allocate(cs, bitrate)[e.observer] >= Min(e.minBitrate, e.maxBitrate)
  {
    var k: nat :| Once(cs, e.observer, k) && AsPassed(cs[k], e);
    AllocateAt(cs, bitrate, k);
  }

  lemma AddedRecordsUp(s: State, e: Event)
    requires Valid(s) && Legal(e) && e.ObserverAdded? && s.lastBitrate > 0
    ensures var after, told := Step(s, e).configs, Rates(s, e);
            && Enrolled(s.configs, after, e) && Covers(after, told)
            && (forall i :: 0 <= i < |after| ==>
                 Answered(after[i], told[after[i].observer], RatioBefore(s.configs, i), e.reply))
            && e.observer in told
            && (e.enforceMin ==> told[e.observer] >= Min(e.minBitrate, e.maxBitrate))
  {
    var cs := Register(s.configs, e);
    RegisterSane(s.configs, e);
    RegisterEnrolls(s.configs, e);
    ReallocateAnswers(cs, s.lastBitrate, e.reply);
    EnrolledFrame(s.configs, cs, Step(s, e).configs, e);
    EnrolledServed(cs, s.lastBitrate, e);
  }

  /** What a registration leaves behind and tells. */
  ghost predicate AddedProperly(before: seq<Config>, up: bool, e: Event, after: seq<Config>, told: Allocation)
    requires e.ObserverAdded?
  {
    && Enrolled(before, after, e)
    && e.observer in told
    && if up then
         && Covers(after, told)
         && (forall i :: 0 <= i < |after| ==>
              Answered(after[i], told[after[i].observer], RatioBefore(before, i), e.reply))
         && (e.enforceMin ==> told[e.observer] >= Min(e.minBitrate, e.maxBitrate))
       else
         && told == map[e.observer := 0]
         && (forall i :: 0 <= i < |after| ==>
              && after[i].mediaRatio == RatioBefore(before, i)
              && after[i].granted == if i < |before| then before[i].granted else -1)
  }

  /** Registration in terms of records: the observer has exactly one, with the values passed.
      While the network is up every observer is told its rate, and an enforced one gets its
      minimum; while it is down only the observer hears, zero, and nothing else changes. */
  lemma AddedRecords(s: State, e: Event)
    requires Valid(s) && Legal(e) && e.ObserverAdded?
    ensures AddedProperly(s.configs, s.lastBitrate > 0, e, Step(s, e).configs, Rates(s, e))
  {
    if s.lastBitrate > 0 {
      AddedRecordsUp(s, e);
    } else {
      AddedRecordsDown(s, e);
    }
  }

  /** Removal in terms of records. */
  lemma RemovedRecords(s: State, observer: ObserverId)
    requires Valid(s)
    ensures var after := Step(s, ObserverRemoved(observer)).configs;
            && !Present(after, observer)
            && (!Present(s.configs, observer) ==> after == s.configs)
            && forall k: nat :: Once(s.configs, observer, k) ==> after == s.configs[..k] + s.configs[k + 1..]
  {
    var k := Find(s.configs, observer);
    UnregisterSane(s.configs, observer);
    var after := Unregister(s.configs, observer);
    forall n: nat | Once(s.configs, observer, n) ensures n == k {
      assert s.configs[n].observer == observer;
    }
    forall i | 0 <= i < |after| ensures after[i].observer != observer {
      assert after[i] in after;
    }
  }

  // ---------- the padding limit ----------

  function SumPadUp(cs: seq<Config>): nat {
    if cs == [] then 0 else cs[0].padUp + SumPadUp(cs[1..])
  }

  /** Waiting for a rate that nothing enforces. */
  predicate Waiting(c: Config) { !c.enforceMin && c.granted == 0 }

  function SumWaiting(cs: seq<Config>): nat {
    if cs == [] then 0 else (if Waiting(cs[0]) then Required(cs[0]) else 0) + SumWaiting(cs[1..])
  }

  lemma {:induction false} PaddingBounds(cs: seq<Config>)
    ensures SumPadUp(cs) <= SumPadding(cs) && SumWaiting(cs) <= SumPadding(cs) <= SumPadUp(cs) + SumWaiting(cs)
    ensures (forall i :: 0 <= i < |cs| ==> !Waiting(cs[i])) ==> SumPadding(cs) == SumPadUp(cs)
    ensures (forall i :: 0 <= i < |cs| ==> cs[i].padUp == 0) ==> SumPadding(cs) == SumWaiting(cs)
  {
    if cs != [] {
      PaddingBounds(cs[1..]);
    }
  }

  lemma {:induction false} PaddingWith(cs: seq<Config>, c: Config)
    ensures SumPadding(cs + [c])
         == SumPadding(cs) + if Waiting(c) then Max(Required(c), c.padUp) else c.padUp
  {
    if cs == [] {
      assert [c][1..] == [] && cs + [c] == [c];
    } else {
      PaddingWith(cs[1..], c);
      assert (cs + [c])[1..] == cs[1..] + [c];
    }
  }

  /** The limits of every reachable state. The minimum is the sum of the enforced minima. The
      padding covers what every observer asks for and what all waiting ones require. */
  lemma LimitsMeaning(s: State)
    requires Valid(s)
    ensures s.limits.minSend == SumEnforcedMin(s.configs)
    ensures SumPadUp(s.configs) <= s.limits.maxPadding
    ensures SumWaiting(s.configs) <= s.limits.maxPadding <= SumPadUp(s.configs) + SumWaiting(s.configs)
    ensures (forall i :: 0 <= i < |s.configs| ==> !Waiting(s.configs[i])) ==>
              s.limits.maxPadding == SumPadUp(s.configs)
    ensures (forall i :: 0 <= i < |s.configs| ==> s.configs[i].padUp == 0) ==>
              s.limits.maxPadding == SumWaiting(s.configs)
  {
    PaddingBounds(s.configs);
  }

  /** One more observer moves the limits by what it alone asks for. */
  lemma LimitsWith(s: State, t: State, c: Config)
    requires Valid(s) && Valid(t) && t.configs == s.configs + [c]
    ensures t.limits.minSend == s.limits.minSend + if c.enforceMin then c.minBitrate else 0
    ensures t.limits.maxPadding
         == s.limits.maxPadding + if Waiting(c) then Max(Required(c), c.padUp) else c.padUp
  {
    PaddingWith(s.configs, c);
    SumRateAppend(EnforcedOnly, s.configs, c);
  }

  // ---------- the bitrates of a run ----------

  /** The last network update of a run with this property, and none after it. */
  ghost predicate LastUpdate(events: seq<Event>, k: nat, positive: bool) {
    && k < |events| && events[k].NetworkChanged? && (positive ==> events[k].bitrate > 0)
    && forall j :: k < j < |events| && events[j].NetworkChanged? ==> positive && events[j].bitrate == 0
  }

  ghost predicate NoUpdate(events: seq<Event>, positive: bool) {
    forall j :: 0 <= j < |events| && events[j].NetworkChanged? ==> positive && events[j].bitrate == 0
  }

  lemma {:induction false} NoUpdateKeeps(s: State, events: seq<Event>, positive: bool)
    requires Valid(s) && LegalRun(events) && NoUpdate(events, positive)
    ensures Run(s, events).lastNonZeroBitrate == s.lastNonZeroBitrate
    ensures !positive ==> Run(s, events).lastBitrate == s.lastBitrate
    decreases |events|
  {
    if events != [] {
      StepKeepsValid(s, events[0]);
      NoUpdateKeeps(Step(s, events[0]), events[1..], positive);
    }
  }

  /** What a run leaves behind as the last bitrate, and as the last one that was not zero. */
  lemma {:induction false} RunBitrates(s: State, events: seq<Event>, k: nat, positive: bool)
    requires Valid(s) && LegalRun(events) && LastUpdate(events, k, positive)
    ensures positive ==> Run(s, events).lastNonZeroBitrate == events[k].bitrate
    ensures !positive ==> Run(s, events).lastBitrate == events[k].bitrate
    decreases |events|
  {
    StepKeepsValid(s, events[0]);
    if k == 0 {
      NoUpdateKeeps(Step(s, events[0]), events[1..], positive);
    } else {
      RunBitrates(Step(s, events[0]), events[1..], k - 1, positive);
    }
  }
}
