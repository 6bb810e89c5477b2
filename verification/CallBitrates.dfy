/** A call's bitrate configuration: the remote side's base, the local mask, their stored
    combination and what the congestion controller has been sent.
 */
module CallBitrates {
  import opened Options
  import opened EvenShares

  /** `start == -1` leaves the start alone, `max == -1` is no maximum. */
  datatype BitrateConfig = BitrateConfig(min: int, start: int, max: int)

  datatype Mask = Mask(min: Option<int>, start: Option<int>, max: Option<int>)

  const NO_MASK := Mask(None, None, None)

  datatype State = State(base: BitrateConfig, mask: Mask, stored: BitrateConfig, sent: seq<BitrateConfig>)

  datatype Event = SetConfig(config: BitrateConfig) | SetMask(mask: Mask)

  /** Like a minimum, but values that are not positive count as unset. */
  function MinPositive(a: int, b: int): (m: int)
    ensures m == a || m == b
    ensures m > 0 <==> a > 0 || b > 0
    ensures a > 0 ==> m <= a
    ensures b > 0 ==> m <= b
  {
    if a <= 0 then b else if b <= 0 then a else Min(a, b)
  }

  function CombinedMax(base: BitrateConfig, mask: Mask): int {
    MinPositive(mask.max.GetOr(-1), base.max)
  }

  /** The greater minimum, unless it exceeds the combined maximum. */
  function CombinedMin(base: BitrateConfig, mask: Mask): int {
    var lo, hi := Max(mask.min.GetOr(0), base.min), CombinedMax(base, mask);
    if hi != -1 && lo > hi then hi else lo
  }

  function Clamp(start: int, lo: int, hi: int): int {
    MinPositive(Max(start, lo), hi)
  }

  /** UpdateCurrentBitrateConfig. Without a new start the controller is told -1 and the
      stored start stays. */
  function Update(s: State, newStart: Option<int>): State {
    var lo, hi := CombinedMin(s.base, s.mask), CombinedMax(s.base, s.mask);
    if lo == s.stored.min && hi == s.stored.max && newStart == None then s
    else
      var start := if newStart.Some? then Clamp(newStart.value, lo, hi) else -1;
      s.(sent := s.sent + [BitrateConfig(lo, start, hi)],
         stored := BitrateConfig(lo, if newStart.Some? then start else s.stored.start, hi))
  }

  /** The start that an event asks for after the base configuration `base`: of a base, only one
      that differs from the previous base's. */
  function Requested(base: BitrateConfig, e: Event): Option<int> {
    match e
    case SetConfig(config) => if config.start != -1 && config.start != base.start then Some(config.start) else None
    case SetMask(mask) => mask.start
  }

  function Step(s: State, e: Event): State {
    match e
    case SetConfig(config) => Update(s.(base := config), Requested(s.base, e))
    case SetMask(mask) => Update(s.(mask := mask), Requested(s.base, e))
  }

  function Initial(config: BitrateConfig): State { State(config, NO_MASK, config, [config]) }

  // ---------- the invariant ----------

  /** What SetBitrateConfig checks of the limits. */
  predicate LegalBase(c: BitrateConfig) { c.min >= 0 && (c.max == -1 || c.max > 0) }

  /** What the constructor checks: a maximum of 0 is possible, if start and minimum are 0. */
  predicate LegalInitial(c: BitrateConfig) {
    0 <= c.min <= c.start && (c.max == -1 || c.start <= c.max)
  }

  predicate Legal(e: Event) { e.SetConfig? ==> LegalBase(e.config) }

  predicate SameLimits(a: BitrateConfig, b: BitrateConfig) { a.min == b.min && a.max == b.max }

  predicate StartInRange(c: BitrateConfig) {
    c.start == -1 || (c.min <= c.start && (c.max == -1 || c.start <= c.max))
  }

  /** The stored limits are the combination of base and mask, and they are what was last sent. */
  ghost predicate Valid(s: State) {
    && 0 <= s.base.min && -1 <= s.base.max
    && s.stored.min == CombinedMin(s.base, s.mask) && s.stored.max == CombinedMax(s.base, s.mask)
    && s.sent != [] && SameLimits(s.sent[|s.sent| - 1], s.stored)
  }

  ghost predicate AllInRange(sent: seq<BitrateConfig>) {
    forall i :: 0 <= i < |sent| ==> StartInRange(sent[i])
  }

  lemma CombinedInOrder(base: BitrateConfig, mask: Mask)
    requires 0 <= base.min && -1 <= base.max
    ensures var lo, hi := CombinedMin(base, mask), CombinedMax(base, mask);
            && 0 <= lo && -1 <= hi && (hi != -1 ==> lo <= hi)
            && (hi == 0 <==> base.max == 0 && mask.max.GetOr(-1) <= 0)
  {
  }

  /** What the documentation says about combined limits, in the fields of base and mask: the
      greater minimum, unless the maximum is less, and the smaller of the maxima that are
      set. */
  ghost predicate Effective(base: BitrateConfig, mask: Mask, c: BitrateConfig) {
    && (c.min == c.max != -1 || (base.min <= c.min && (mask.min.Some? ==> mask.min.value <= c.min)))
    && (c.max != -1 ==> c.min <= c.max)
    && (|| c.min == base.min || mask.min == Some(c.min)
        || (c.min == c.max != -1 && (base.min > c.max || (mask.min.Some? && mask.min.value > c.max))))
    && (base.max > 0 ==> 0 < c.max <= base.max)
    && (mask.max.Some? && mask.max.value > 0 ==> 0 < c.max <= mask.max.value)
    && (c.max == base.max || (c.max > 0 && mask.max == Some(c.max)))
  }

  lemma CombinedEffective(base: BitrateConfig, mask: Mask, start: int)
    requires 0 <= base.min && -1 <= base.max
    ensures Effective(base, mask, BitrateConfig(CombinedMin(base, mask), start, CombinedMax(base, mask)))
  {
  }

  /** That leaves no choice. */
  lemma EffectiveUnique(base: BitrateConfig, mask: Mask, a: BitrateConfig, b: BitrateConfig)
    requires 0 <= base.min && -1 <= base.max && Effective(base, mask, a) && Effective(base, mask, b)
    ensures SameLimits(a, b)
  {
  }

  /** A positive start is sent as it is within the limits, as the minimum below them and as the
      maximum above them. One that is not positive is raised to a positive minimum; without
      one it becomes the maximum, or unset if there is none. */
  lemma StartSent(s: State, e: Event)
    requires Valid(s) && Legal(e) && Requested(s.base, e).Some?
    ensures var after, start := Step(s, e), Requested(s.base, e).value;
            && |after.sent| == |s.sent| + 1
            && var last := after.sent[|s.sent|];
               && SameLimits(last, after.stored) && last.start == after.stored.start
               && (start > 0 && last.min <= start && (last.max <= 0 || start <= last.max) ==> last.start == start)
               && (start < last.min && last.min > 0 ==> last.start == last.min)
               && (start > last.max > 0 ==> last.start == last.max)
               && (start <= 0 && last.min == 0 ==> last.start == last.max)
  {
    var after := Step(s, e);
    CombinedInOrder(after.base, after.mask);
  }

  /** A requested start ends up within the limits, unless the only limit is a maximum of
      zero, which counts both as a limit and as unset. */
  lemma StartInRangeIff(start: int, lo: int, hi: int)
    requires 0 <= lo && hi >= -1 && (hi != -1 ==> lo <= hi)
    ensures StartInRange(BitrateConfig(lo, Clamp(start, lo, hi), hi)) <==> !(hi == 0 && start > 0)
  {
  }

  /** The start stays positive exactly when the request or a limit is positive. */
  lemma StartPositiveIff(start: int, lo: int, hi: int)
    ensures Clamp(start, lo, hi) > 0 <==> start > 0 || lo > 0 || hi > 0
  {
  }

  lemma StepKeepsValid(s: State, e: Event)
    requires Valid(s) && Legal(e)
    ensures Valid(Step(s, e))
  {
  }

  /** A mask asks for a positive start and sets no maximum while the base maximum is 0. */
  predicate Escapes(base: BitrateConfig, e: Event) {
    e.SetMask? && e.mask.start.GetOr(0) > 0 && e.mask.max.GetOr(-1) <= 0 && base.max == 0
  }

  lemma AppendInRange(sent: seq<BitrateConfig>, c: BitrateConfig)
    ensures AllInRange(sent + [c]) <==> AllInRange(sent) && StartInRange(c)
  {
    assert (sent + [c])[|sent|] == c;
    assert forall i :: 0 <= i < |sent| ==> (sent + [c])[i] == sent[i];
  }

  /** A step sends a start out of range exactly when it escapes. */
  lemma StepInRangeIff(s: State, e: Event)
    requires Valid(s) && Legal(e)
    ensures AllInRange(Step(s, e).sent) <==> AllInRange(s.sent) && !Escapes(s.base, e)
  {
    var after, start := Step(s, e), Requested(s.base, e);
    var lo, hi := CombinedMin(after.base, after.mask), CombinedMax(after.base, after.mask);
    CombinedInOrder(after.base, after.mask);
    if start.Some? {
      StartInRangeIff(start.value, lo, hi);
    }
    if after.sent != s.sent {
      var last := BitrateConfig(lo, if start.Some? then Clamp(start.value, lo, hi) else -1, hi);
      assert after.sent == s.sent + [last];
      assert StartInRange(last) <==> !Escapes(s.base, e);
      AppendInRange(s.sent, last);
    }
  }

  // ---------- whole runs ----------

  function Run(s: State, events: seq<Event>): State
    decreases |events|
  {
    if events == [] then s else Run(Step(s, events[0]), events[1..])
  }

  predicate LegalRun(events: seq<Event>) {
    forall i :: 0 <= i < |events| ==> Legal(events[i])
  }

  lemma {:induction false} RunKeepsValid(s: State, events: seq<Event>)
    requires Valid(s) && LegalRun(events)
    ensures Valid(Run(s, events))
    decreases |events|
  {
    if events != [] {
      StepKeepsValid(s, events[0]);
      RunKeepsValid(Step(s, events[0]), events[1..]);
    }
  }

  function LastBase(first: BitrateConfig, events: seq<Event>): BitrateConfig
    decreases |events|
  {
    if events == [] then first
    else
      var e := events[|events| - 1];
      if e.SetConfig? then e.config else LastBase(first, events[..|events| - 1])
  }

  function LastMask(first: Mask, events: seq<Event>): Mask
    decreases |events|
  {
    if events == [] then first
    else
      var e := events[|events| - 1];
      if e.SetMask? then e.mask else LastMask(first, events[..|events| - 1])
  }

  lemma {:induction false} RunAppend(s: State, events: seq<Event>, e: Event)
    ensures Run(s, events + [e]) == Step(Run(s, events), e)
    decreases |events|
  {
    if events == [] {
      assert events + [e] == [e] && [e][1..] == [];
    } else {
      RunAppend(Step(s, events[0]), events[1..], e);
      assert (events + [e])[1..] == events[1..] + [e];
    }
  }

  lemma {:induction false} RunInputs(s: State, events: seq<Event>)
    ensures Run(s, events).base == LastBase(s.base, events)
    ensures Run(s, events).mask == LastMask(s.mask, events)
    decreases |events|
  {
    if events != [] {
      var init, e := events[..|events| - 1], events[|events| - 1];
      assert events == init + [e];
      RunAppend(s, init, e);
      RunInputs(s, init);
    }
  }

  /** However the calls were interleaved, the limits in force and the limits last sent are
      those of the last base and the last mask. */
  lemma RunCombines(config: BitrateConfig, events: seq<Event>)
    requires LegalInitial(config) && LegalRun(events)
    ensures var s := Run(Initial(config), events);
            var base, mask := LastBase(config, events), LastMask(NO_MASK, events);
            && s.stored.min == CombinedMin(base, mask) && s.stored.max == CombinedMax(base, mask)
            && s.sent != [] && SameLimits(s.sent[|s.sent| - 1], s.stored)
            && (config.max != 0 ==> AllInRange(s.sent))
  {
    RunKeepsValid(Initial(config), events);
    RunInputs(Initial(config), events);
    RunInRangeIff(config, events);
    if config.max != 0 {
      forall i | 0 <= i < |events| ensures !Escapes(LastBase(config, events[..i]), events[i]) {
        LastBaseLegal(config, events[..i]);
      }
    }
  }

  /** The same in the fields of the last base and the last mask. */
  lemma RunEffective(config: BitrateConfig, events: seq<Event>)
    requires LegalInitial(config) && LegalRun(events)
    ensures Effective(LastBase(config, events), LastMask(NO_MASK, events), Run(Initial(config), events).stored)
  {
    RunKeepsValid(Initial(config), events);
    RunInputs(Initial(config), events);
    CombinedEffective(LastBase(config, events), LastMask(NO_MASK, events), Run(Initial(config), events).stored.start);
  }

  lemma {:induction false} LastBaseLegal(first: BitrateConfig, events: seq<Event>)
    requires LegalRun(events) && first.max != 0
    ensures LastBase(first, events).max != 0
    decreases |events|
  {
    if events != [] && !events[|events| - 1].SetConfig? {
      LastBaseLegal(first, events[..|events| - 1]);
    }
  }

  /** Every start sent in a run is -1 or within the limits sent with it exactly when no mask
      asks for a positive start, setting no maximum, while the base maximum is the 0 that
      only the constructor lets through. */
  lemma {:induction false} RunInRangeIff(config: BitrateConfig, events: seq<Event>)
    requires LegalInitial(config) && LegalRun(events)
    ensures AllInRange(Run(Initial(config), events).sent) <==>
            forall i :: 0 <= i < |events| ==> !Escapes(LastBase(config, events[..i]), events[i])
    decreases |events|
  {
    if events != [] {
      var init, e := events[..|events| - 1], events[|events| - 1];
      assert events == init + [e];
      RunInRangeIff(config, init);
      RunKeepsValid(Initial(config), init);
      RunInputs(Initial(config), init);
      RunAppend(Initial(config), init, e);
      StepInRangeIff(Run(Initial(config), init), e);
      assert forall i :: 0 <= i < |init| ==> init[..i] == events[..i] && init[i] == events[i];
    }
  }

  /** From limits of 0, a mask asking for a start of 100 sends 100 above a maximum of 0. */
  lemma ZeroMaximumEscapes()
    ensures var config, mask := BitrateConfig(0, 0, 0), SetMask(Mask(None, Some(100), None));
            && LegalInitial(config)
            && Step(Initial(config), mask).sent == [config, BitrateConfig(0, 100, 0)]
            && !StartInRange(BitrateConfig(0, 100, 0))
  {
  }

  // ---------- the start bitrate ----------

  /** Every start asked for is positive. */
  predicate AsksPositive(e: Event) {
    match e
    case SetConfig(config) => config.start == -1 || config.start > 0
    case SetMask(mask) => mask.start.Some? ==> mask.start.value > 0
  }

  /** The most recent start that was sent, -1 if none. */
  function LastStart(sent: seq<BitrateConfig>): int {
    if sent == [] then -1
    else if sent[|sent| - 1].start != -1 then sent[|sent| - 1].start
    else LastStart(sent[..|sent| - 1])
  }

  /** The stored start is the last one sent and, given positive requests, is positive. */
  lemma {:induction false} RunStartPositive(s: State, events: seq<Event>)
    requires s.stored.start > 0 && s.stored.start == LastStart(s.sent)
    requires forall i :: 0 <= i < |events| ==> AsksPositive(events[i])
    ensures Run(s, events).stored.start > 0
    ensures Run(s, events).stored.start == LastStart(Run(s, events).sent)
    decreases |events|
  {
    if events != [] {
      var after := Step(s, events[0]);
      if after.sent != s.sent {
        assert after.sent[..|after.sent| - 1] == s.sent;
      }
      RunStartPositive(after, events[1..]);
    }
  }

  /** A mask may ask for a start of 0, as documented; without limits that unsets the start. */
  lemma ZeroStartUnsets()
    ensures var s := Step(Initial(BitrateConfig(0, 300000, -1)), SetMask(Mask(None, Some(0), None)));
            s.stored.start == -1
  {
  }

  /** After a step the stored start lies within the stored limits exactly when a new start was
      asked for and did not escape them, or none was and the old one lies within the new
      limits. */
  lemma StoredInRangeIff(s: State, e: Event)
    requires Valid(s) && Legal(e)
    ensures var after := Step(s, e);
            StartInRange(after.stored) <==>
            if Requested(s.base, e).Some? then !Escapes(s.base, e)
            else StartInRange(BitrateConfig(CombinedMin(after.base, after.mask), s.stored.start,
                                            CombinedMax(after.base, after.mask)))
  {
    var after, start := Step(s, e), Requested(s.base, e);
    CombinedInOrder(after.base, after.mask);
    if start.Some? {
      StartInRangeIff(start.value, CombinedMin(after.base, after.mask), CombinedMax(after.base, after.mask));
    }
  }

  /** The start that a run leaves behind, from its inputs alone: the last one asked for,
      clamped to the limits of that moment. */
  function StartOf(config: BitrateConfig, events: seq<Event>): int
    decreases |events|
  {
    if events == [] then config.start
    else
      var init, e := events[..|events| - 1], events[|events| - 1];
      var base, mask := LastBase(config, events), LastMask(NO_MASK, events);
      var start := Requested(LastBase(config, init), e);
      if start.Some? then Clamp(start.value, CombinedMin(base, mask), CombinedMax(base, mask))
      else StartOf(config, init)
  }

  lemma {:induction false} RunStoresStart(config: BitrateConfig, events: seq<Event>)
    ensures Run(Initial(config), events).stored.start == StartOf(config, events)
    decreases |events|
  {
    if events != [] {
      var init, e := events[..|events| - 1], events[|events| - 1];
      assert events == init + [e];
      RunStoresStart(config, init);
      RunInputs(Initial(config), init);
      RunInputs(Initial(config), events);
      RunAppend(Initial(config), init, e);
    }
  }

  /** After a run the stored start lies within the stored limits exactly when the last start
      asked for, clamped to the limits of its moment, lies within those of the last base and
      mask; with positive requests it is also the last start sent. */
  lemma RunStoredInRangeIff(config: BitrateConfig, events: seq<Event>)
    requires LegalInitial(config) && LegalRun(events)
    ensures var s := Run(Initial(config), events);
            var base, mask := LastBase(config, events), LastMask(NO_MASK, events);
            var lo, hi := CombinedMin(base, mask), CombinedMax(base, mask);
            && (StartInRange(s.stored) <==> StartInRange(BitrateConfig(lo, StartOf(config, events), hi)))
            && (config.start > 0 && (forall i :: 0 <= i < |events| ==> AsksPositive(events[i])) ==>
                 && StartOf(config, events) == LastStart(s.sent) > 0
                 && (StartInRange(s.stored) <==>
                      lo <= LastStart(s.sent) && (hi == -1 || LastStart(s.sent) <= hi)))
  {
    RunCombines(config, events);
    RunStoresStart(config, events);
    if config.start > 0 && forall i :: 0 <= i < |events| ==> AsksPositive(events[i]) {
      assert Initial(config).sent[|Initial(config).sent| - 1] == config;
      RunStartPositive(Initial(config), events);
    }
  }

  /** A later, lower maximum leaves the stored start above it. */
  lemma StoredStartGoesStale()
    ensures var s := Step(Initial(BitrateConfig(0, 300000, -1)), SetMask(Mask(None, None, Some(100000))));
            s.stored.max == 100000 && s.stored.start == 300000
  {
  }

  /** A base configuration's start is sent, clamped to the combined limits, exactly when it
      differs from the previous base's, whatever a mask has set in between. */
  lemma ConfigStartUsedIff(s: State, config: BitrateConfig)
    requires config.start > 0
    ensures var after := Step(s, SetConfig(config));
            config.start != s.base.start <==>
            && |after.sent| == |s.sent| + 1
            && after.sent[|s.sent|].start
               == Clamp(config.start, CombinedMin(config, s.mask), CombinedMax(config, s.mask))
  {
  }

  /** Setting the same base configuration again sends nothing. */
  lemma SameConfigSendsNothing(s: State, config: BitrateConfig)
    ensures var once := Step(s, SetConfig(config));
            Step(once, SetConfig(config)) == once
  {
  }

  /** The latest start is not always used: 300, masked to 100, asked for 300 again. */
  lemma LatestStartIgnored()
    ensures var s := Run(Initial(BitrateConfig(0, 300, -1)),
                         [SetMask(Mask(None, Some(100), None)), SetConfig(BitrateConfig(0, 300, -1))]);
            s.stored.start == 100
  {
    var a, b := SetMask(Mask(None, Some(100), None)), SetConfig(BitrateConfig(0, 300, -1));
    assert [a, b][1..] == [b] && [b][1..] == [];
    assert Run(Initial(BitrateConfig(0, 300, -1)), [a, b])
        == Run(Step(Initial(BitrateConfig(0, 300, -1)), a), [b]);
  }
}
