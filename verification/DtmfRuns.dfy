/** What every reachable state of the digit parser keeps, and how far apart its completions are. */
module DtmfRuns {
  import opened Prelude
  import opened DtmfTypes
  import opened Rtp
  import opened DtmfParser

  /** Bounded, duplicate-free, ordered in time; nothing is active without an active capability. */
  ghost predicate Inv(s: Parser, clock: Instant) {
    && |s.active| + |s.recent| <= 32
    && (forall i, j :: 0 <= i < j < |s.recent| ==>
       s.recent[i].key != s.recent[j].key && s.recent[i].at <= s.recent[j].at)
    && (forall i :: 0 <= i < |s.recent| ==> s.recent[i].key !in s.active && s.recent[i].at <= clock)
    && (s.config.ActiveCapability().None? ==> s.active == map[])
  }

  lemma {:induction false} PruneInv(s: Parser, clock: Instant, now: Instant)
    requires Inv(s, clock) && clock <= now
    ensures Inv(s.Prune(now), now)
    decreases |s.recent|
  {
    if s.recent != [] && SatSub(now, s.recent[0].at) >= RECENT_TTL {
      PruneInv(s.(recent := s.recent[1..]), clock, now);
    }
  }

  /** Pruning forgets exactly the completions that are two seconds old. */
  lemma {:induction false} PruneExact(s: Parser, clock: Instant, now: Instant, r: Recent)
    requires Inv(s, clock) && clock <= now
    ensures r in s.Prune(now).recent <==> r in s.recent && now - r.at < 2_000_000_000
    decreases |s.recent|
  {
    if s.recent != [] && SatSub(now, s.recent[0].at) >= RECENT_TTL {
      PruneExact(s.(recent := s.recent[1..]), clock, now, r);
      assert r in s.recent <==> r == s.recent[0] || r in s.recent[1..];
    } else if r in s.recent {
      var i :| 0 <= i < |s.recent| && s.recent[i] == r;
      assert s.recent[0].at <= r.at;
    }
  }

  lemma CompleteInv(s: Parser, key: EventKey, now: Instant)
    requires Inv(s, now) && key in s.active
    ensures Inv(s.Complete(key, now), now)
  {
    assert s.Complete(key, now).active.Keys == s.active.Keys - {key};
    assert |s.Complete(key, now).active| == |s.active| - 1;
  }

  lemma {:induction false} CompleteAllInv(s: Parser, order: seq<EventKey>, now: Instant)
    requires Inv(s, now) && Lists(order, s.active.Keys)
    ensures Inv(s.CompleteAll(order, now), now)
    decreases |order|
  {
    if order != [] {
      ListsTail(order, s.active.Keys);
      CompleteInv(s, order[0], now);
      CompleteAllInv(s.Complete(order[0], now), order[1..], now);
    }
  }

  lemma ExpireInv(s: Parser, clock: Instant, now: Instant, order: seq<EventKey>)
    requires Inv(s, clock) && clock <= now && Orders(order, s.DueKeys(now))
    ensures Inv(s.Expire(now, order), now)
  {
    PruneInv(s, clock, now);
    PruneKeepsActive(s, now);
    CompleteAllInv(s.Prune(now), order, now);
  }

  /** In a bounded state at most the oldest completion is evicted, and only when all 32 entries are taken. */
  lemma MakeRoomEvictsOldest(s: Parser)
    requires s.Load() <= STATE_CAPACITY
    ensures s.MakeRoom() == if s.Load() == STATE_CAPACITY && s.recent != [] then s.(recent := s.recent[1..]) else s
  {
  }

  /** Making room keeps the invariant. */
  lemma MakeRoomInv(s: Parser, now: Instant)
    requires Inv(s, now)
    ensures Inv(s.MakeRoom(), now) && s.MakeRoom().active == s.active && s.MakeRoom().config == s.config
    ensures forall key :: s.MakeRoom().Remembers(key) ==> s.Remembers(key)
  {
    MakeRoomEvictsOldest(s);
  }

  /** A press of a negotiated, not remembered key in a state with room for it. */
  lemma TouchInv(s: Parser, key: EventKey, digit: nat, duration: nat, now: Instant)
    requires Inv(s, now) && s.config.ActiveCapability().Some? && !s.Remembers(key)
    requires key in s.active || s.Load() < STATE_CAPACITY
    ensures Inv(s.Touch(key, digit, duration, now), now) && key in s.Touch(key, digit, duration, now).active
  {
    var t := s.Touch(key, digit, duration, now);
    assert t.active.Keys == s.active.Keys + {key};
  }

  lemma EventInv(s: Parser, rtp: Parsed, capability: Capability, now: Instant)
    requires Inv(s, now) && s.config.ActiveCapability() == Some(capability)
    ensures Inv(s.Event(rtp, capability, now).0, now)
  {
    if |rtp.payload| >= 4 {
      var key := EventKey(rtp.ssrc, rtp.timestamp, rtp.payload[0]);
      var duration := Be16(rtp.payload[2], rtp.payload[3]);
      MakeRoomInv(s, now);
      var room := if key in s.active then s else s.MakeRoom();
      if !s.Remembers(key) && MapEvent(rtp.payload[0], capability).Some?
         && (key in s.active || room.Load() < STATE_CAPACITY) {
        TouchInv(room, key, rtp.payload[0], duration, now);
        CompleteInv(room.Touch(key, rtp.payload[0], duration, now), key, now);
      }
    }
  }

  lemma ObserveInv(s: Parser, clock: Instant, packet: seq<byte>, now: Instant, order: seq<EventKey>)
    requires Inv(s, clock) && clock <= now && Orders(order, s.DueKeys(now))
    ensures Inv(s.Observe(packet, now, order).0, now)
  {
    ExpireInv(s, clock, now, order);
    ExpireKeepsConfig(s, now, order);
    var capability := s.config.ActiveCapability();
    if capability.Some? && DtmfParse(packet).Some?
      && DtmfParse(packet).value.payloadType == capability.value.payloadType {
      EventInv(s.Expire(now, order), DtmfParse(packet).value, capability.value, now);
    }
  }

  /** Expiry completes something exactly when the next deadline has come, and leaves only later deadlines. */
  lemma ExpireMeetsDeadline(s: Parser, now: Instant, order: seq<EventKey>, before: Option<Instant>,
                            after: Option<Instant>)
    requires Orders(order, s.DueKeys(now))
    requires IsNextDeadline(s, before) && IsNextDeadline(s.Expire(now, order), after)
    ensures s.Completions(order) != [] <==> before.Some? && before.value <= now
    ensures after.Some? ==> after.value > now
    ensures after.None? <==> forall key :: key in s.active ==> s.active[key].Deadline() <= now
  {
    PruneKeepsActive(s, now);
    CompleteAllActive(s.Prune(now), order, now);
    if before.Some? && before.value <= now {
      var key :| key in s.active && s.active[key].Deadline() == before.value;
      assert key in s.DueKeys(now);
    }
    if order != [] {
      assert order[0] in s.DueKeys(now);
    }
    var t := s.Expire(now, order);
    forall key | key in t.active ensures t.active[key].Deadline() > now && t.active[key] == s.active[key] {
      assert key !in s.DueKeys(now);
    }
  }

  // ---- Runs ----

  datatype World = World(parser: Parser, clock: Instant)

  datatype Step =
    | Observe(packet: seq<byte>, now: Instant, order: seq<EventKey>)
    | Expire(now: Instant, order: seq<EventKey>)
    | Configure(config: ParserConfig)

  ghost predicate Enabled(w: World, step: Step) {
    !step.Configure? ==> w.clock <= step.now && Orders(step.order, w.parser.DueKeys(step.now))
  }

  ghost function Apply(w: World, step: Step): World
    requires Enabled(w, step)
  {
    match step
    case Observe(packet, now, order) => World(w.parser.Observe(packet, now, order).0, now)
    case Expire(now, order) => World(w.parser.Expire(now, order), now)
    case Configure(config) => w.(parser := w.parser.Configure(config))
  }

  ghost function Reports(w: World, step: Step): seq<Observation>
    requires Enabled(w, step)
  {
    match step
    case Observe(packet, now, order) => w.parser.Observe(packet, now, order).1
    case Expire(now, order) => w.parser.Completions(order)
    case Configure(_) => []
  }

  /** The step reports a completed digit for the key. */
  ghost predicate Completes(w: World, step: Step, key: EventKey)
    requires Enabled(w, step)
  {
    exists i :: 0 <= i < |Reports(w, step)| && Reports(w, step)[i].Digit? && Reports(w, step)[i].completed.key == key
  }

  /** A full state makes the step forget the key: it is remembered after expiry, but no longer at the end. */
  ghost predicate Evicts(w: World, step: Step, key: EventKey)
    requires Enabled(w, step)
  {
    step.Observe? && w.parser.Expire(step.now, step.order).Remembers(key) && !Apply(w, step).parser.Remembers(key)
  }

  ghost predicate Valid(w: World, run: seq<Step>)
    decreases |run|
  {
    run != [] ==> Enabled(w, run[0]) && Valid(Apply(w, run[0]), run[1..])
  }

  ghost function Execute(w: World, run: seq<Step>): World
    requires Valid(w, run)
    decreases |run|
  {
    if run == [] then w else Execute(Apply(w, run[0]), run[1..])
  }

  lemma StepInv(w: World, step: Step)
    requires Inv(w.parser, w.clock) && Enabled(w, step)
    ensures var next := Apply(w, step); Inv(next.parser, next.clock)
  {
    match step
    case Observe(packet, now, order) => ObserveInv(w.parser, w.clock, packet, now, order);
    case Expire(now, order) => ExpireInv(w.parser, w.clock, now, order);
    case Configure(_) =>
  }

  /** A new parser meets the invariant at any time. */
  lemma NewParserInv(config: ParserConfig, clock: Instant)
    ensures Inv(Parser(config, map[], []), clock)
  {
  }

  /** Every reachable state is bounded by 32 entries, duplicate-free and ordered. */
  lemma {:induction false} BoundedOnEveryRun(w: World, run: seq<Step>)
    requires Inv(w.parser, w.clock) && Valid(w, run)
    ensures var end := Execute(w, run); Inv(end.parser, end.clock)
    decreases |run|
  {
    if run != [] {
      StepInv(w, run[0]);
      BoundedOnEveryRun(Apply(w, run[0]), run[1..]);
    }
  }

  /** What an event packet does to the remembered completions: it may drop the oldest and append one. */
  lemma EventRecent(s: Parser, rtp: Parsed, capability: Capability, now: Instant)
    requires s.Load() <= STATE_CAPACITY
    ensures var t := s.Event(rtp, capability, now).0;
            s.recent <= t.recent || (s.Load() == STATE_CAPACITY && s.recent != [] && s.recent[1..] <= t.recent)
  {
    MakeRoomEvictsOldest(s);
  }

  lemma EventForgets(s: Parser, rtp: Parsed, capability: Capability, now: Instant, i: nat)
    requires s.Load() <= STATE_CAPACITY && i < |s.recent|
    ensures s.Event(rtp, capability, now).0.Remembers(s.recent[i].key) || (s.Load() == STATE_CAPACITY && i == 0)
  {
    EventRecent(s, rtp, capability, now);
    var t := s.Event(rtp, capability, now).0;
    if s.recent <= t.recent {
      assert t.recent[i] == s.recent[i];
    } else if i > 0 {
      assert t.recent[i - 1] == s.recent[1..][i - 1];
    }
  }

  /** A key is evicted only from a full state, and it is the oldest one. */
  lemma EvictionNeedsFullState(w: World, step: Step, key: EventKey)
    requires Inv(w.parser, w.clock) && Enabled(w, step) && Evicts(w, step, key)
    ensures var s := w.parser.Expire(step.now, step.order);
            |s.active| + |s.recent| == 32 && s.recent[0].key == key
  {
    ExpireInv(w.parser, w.clock, step.now, step.order);
    var s := w.parser.Expire(step.now, step.order);
    var i :| 0 <= i < |s.recent| && s.recent[i].key == key;
    EventForgets(s, DtmfParse(step.packet).value, w.parser.config.ActiveCapability().value, step.now, i);
  }

  // ---- Spacing of completions ----

  /** Nothing that would erase the memory of the key happens: no eviction of it and no change of configuration. */
  ghost predicate Undisturbed(w: World, run: seq<Step>, key: EventKey)
    requires Valid(w, run)
    decreases |run|
  {
    run != [] ==>
      && !Evicts(w, run[0], key)
      && (run[0].Configure? ==> run[0].config == w.parser.config)
      && Undisturbed(Apply(w, run[0]), run[1..], key)
  }

  lemma EventCompletes(s: Parser, rtp: Parsed, capability: Capability, now: Instant)
    ensures var (t, reports) := s.Event(rtp, capability, now);
            forall i :: 0 <= i < |reports| && reports[i].Digit? ==>
              var key := reports[i].completed.key;
              !s.Remembers(key) && Recent(key, now) in t.recent
  {
  }

  ghost predicate FromEvent(w: World, step: Step, i: nat)
    requires Enabled(w, step) && i < |Reports(w, step)|
  {
    && step.Observe? && i >= |step.order|
    && w.parser.config.ActiveCapability().Some? && DtmfParse(step.packet).Some?
    && var (t, reports) := w.parser.Expire(step.now, step.order)
                             .Event(DtmfParse(step.packet).value, w.parser.config.ActiveCapability().value, step.now);
       t == Apply(w, step).parser && i - |step.order| < |reports| && reports[i - |step.order|] == Reports(w, step)[i]
  }

  /** The reports of a step: what expired, then what the packet says. */
  lemma ReportsSplit(w: World, step: Step)
    requires Enabled(w, step) && step.Observe?
    ensures w.parser.Completions(step.order) <= Reports(w, step)
    ensures |w.parser.Completions(step.order)| == |step.order|
    ensures w.parser.config.ActiveCapability().None? || DtmfParse(step.packet).None? ==>
              forall i :: |step.order| <= i < |Reports(w, step)| ==> Reports(w, step)[i] == Invalid
  {
  }

  /** A reported digit stems from expiry or from the event packet itself. */
  lemma ReportSource(w: World, step: Step, i: nat)
    requires Enabled(w, step) && i < |Reports(w, step)| && Reports(w, step)[i].Digit?
    ensures !step.Configure?
    ensures FromEvent(w, step, i) || (i < |step.order| && Reports(w, step)[i].completed.key == step.order[i])
  {
    if step.Observe? {
      ReportsSplit(w, step);
      if i < |step.order| {
        assert Reports(w, step)[i] == w.parser.Completions(step.order)[i];
      } else {
        assert w.parser.config.ActiveCapability().Some? && DtmfParse(step.packet).Some?;
        assert FromEvent(w, step, i);
      }
    }
  }

  lemma ExpiredRecent(w: World, step: Step)
    requires Enabled(w, step) && !step.Configure?
    ensures var s, start := w.parser.Expire(step.now, step.order), |w.parser.Prune(step.now).recent|;
            && |s.recent| == start + |step.order|
            && forall i :: 0 <= i < |step.order| ==> s.recent[start + i] == Recent(step.order[i], step.now)
  {
    PruneKeepsActive(w.parser, step.now);
    CompleteAllActive(w.parser.Prune(step.now), step.order, step.now);
  }

  lemma EventRemembered(w: World, step: Step, i: nat)
    requires Enabled(w, step) && i < |Reports(w, step)| && Reports(w, step)[i].Digit? && FromEvent(w, step, i)
    ensures Recent(Reports(w, step)[i].completed.key, step.now) in Apply(w, step).parser.recent
  {
    EventCompletes(w.parser.Expire(step.now, step.order), DtmfParse(step.packet).value,
                   w.parser.config.ActiveCapability().value, step.now);
  }

  /** The i-th due key is remembered by expiry. */
  lemma DueRemembered(w: World, step: Step, i: nat)
    requires Enabled(w, step) && !step.Configure? && i < |step.order|
    ensures var s, at := w.parser.Expire(step.now, step.order), |w.parser.Prune(step.now).recent| + i;
            at < |s.recent| && s.recent[at] == Recent(step.order[i], step.now)
  {
    ExpiredRecent(w, step);
  }

  lemma KeptDue(w: World, step: Step, at: nat, r: Recent)
    requires Inv(w.parser, w.clock) && Enabled(w, step) && step.Observe? && !Evicts(w, step, r.key)
    requires at < |w.parser.Expire(step.now, step.order).recent|
    requires w.parser.Expire(step.now, step.order).recent[at] == r
    ensures r in Apply(w, step).parser.recent
  {
    KeptByEvent(w, step, at);
  }

  lemma ExpiryRemembered(w: World, step: Step, i: nat)
    requires Inv(w.parser, w.clock) && Enabled(w, step) && !step.Configure? && i < |step.order|
    requires !Evicts(w, step, step.order[i])
    ensures Recent(step.order[i], step.now) in Apply(w, step).parser.recent
  {
    var at := |w.parser.Prune(step.now).recent| + i;
    DueRemembered(w, step, i);
    if step.Observe? {
      KeptDue(w, step, at, Recent(step.order[i], step.now));
    } else {
      assert Apply(w, step).parser.recent[at] == Recent(step.order[i], step.now);
    }
  }

  /** A completed key is remembered with the time of the step, unless it is evicted at once. */
  lemma CompletionRemembered(w: World, step: Step, key: EventKey)
    requires Inv(w.parser, w.clock) && Enabled(w, step) && Completes(w, step, key) && !Evicts(w, step, key)
    ensures Recent(key, step.now) in Apply(w, step).parser.recent
  {
    var i :| 0 <= i < |Reports(w, step)| && Reports(w, step)[i].Digit? && Reports(w, step)[i].completed.key == key;
    ReportSource(w, step, i);
    if FromEvent(w, step, i) {
      EventRemembered(w, step, i);
    } else {
      ExpiryRemembered(w, step, i);
    }
  }

  /** What expiry remembers survives the rest of the step unless it is evicted. */
  lemma KeptByEvent(w: World, step: Step, i: nat)
    requires Inv(w.parser, w.clock) && Enabled(w, step) && step.Observe?
    requires i < |w.parser.Expire(step.now, step.order).recent|
    requires !Evicts(w, step, w.parser.Expire(step.now, step.order).recent[i].key)
    ensures w.parser.Expire(step.now, step.order).recent[i] in Apply(w, step).parser.recent
  {
    var s := w.parser.Expire(step.now, step.order);
    ExpireInv(w.parser, w.clock, step.now, step.order);
    assert s.Remembers(s.recent[i].key);
    var capability := w.parser.config.ActiveCapability();
    if capability.Some? && DtmfParse(step.packet).Some?
      && DtmfParse(step.packet).value.payloadType == capability.value.payloadType {
      EventRecent(s, DtmfParse(step.packet).value, capability.value, step.now);
      var t := Apply(w, step).parser;
      if s.recent <= t.recent {
        assert t.recent[i] == s.recent[i];
      } else if i > 0 {
        assert t.recent[i - 1] == s.recent[1..][i - 1];
      } else {
        OldestNotAgain(s, DtmfParse(step.packet).value, capability.value, step.now);
      }
    }
  }

  /** The packet that evicts the oldest key is not for that key. */
  lemma OldestNotAgain(s: Parser, rtp: Parsed, capability: Capability, now: Instant)
    requires Inv(s, now) && s.recent != [] && s.Event(rtp, capability, now).0.Remembers(s.recent[0].key)
    ensures s.recent[0] in s.Event(rtp, capability, now).0.recent
  {
    MakeRoomEvictsOldest(s);
  }

  /** While a key is remembered it is not completed; the memory lasts until it is two seconds old. */
  lemma RememberedStep(w: World, step: Step, key: EventKey, since: Instant)
    requires Inv(w.parser, w.clock) && Enabled(w, step) && Recent(key, since) in w.parser.recent
    requires step.Configure? ==> step.config == w.parser.config
    ensures var next := Apply(w, step);
            || next.clock >= since + RECENT_TTL
            || (!Completes(w, step, key) && (Recent(key, since) in next.parser.recent || Evicts(w, step, key)))
  {
    if !step.Configure? && step.now < since + RECENT_TTL {
      var i := StillRemembered(w, step, key, since);
      NotCompleted(w, step, key);
      if step.Observe? && !Evicts(w, step, key) {
        KeptByEvent(w, step, i);
      }
    }
  }

  /** A young enough completion survives expiry. */
  lemma StillRemembered(w: World, step: Step, key: EventKey, since: Instant) returns (i: nat)
    requires Inv(w.parser, w.clock) && Enabled(w, step) && Recent(key, since) in w.parser.recent
    requires !step.Configure? && step.now < since + RECENT_TTL
    ensures i < |w.parser.Expire(step.now, step.order).recent|
    ensures w.parser.Expire(step.now, step.order).recent[i] == Recent(key, since)
    ensures w.parser.Expire(step.now, step.order).Remembers(key) && key !in w.parser.active
  {
    PruneKeepsActive(w.parser, step.now);
    PruneExact(w.parser, w.clock, step.now, Recent(key, since));
    CompleteAllActive(w.parser.Prune(step.now), step.order, step.now);
    i :| 0 <= i < |w.parser.Prune(step.now).recent| && w.parser.Prune(step.now).recent[i] == Recent(key, since);
  }

  lemma NotCompleted(w: World, step: Step, key: EventKey)
    requires Enabled(w, step) && !step.Configure? && key !in w.parser.active
    requires w.parser.Expire(step.now, step.order).Remembers(key)
    ensures !Completes(w, step, key)
  {
    forall i | 0 <= i < |Reports(w, step)| && Reports(w, step)[i].Digit?
      ensures Reports(w, step)[i].completed.key != key
    {
      ReportSource(w, step, i);
      if FromEvent(w, step, i) {
        EventCompletes(w.parser.Expire(step.now, step.order), DtmfParse(step.packet).value,
                       w.parser.config.ActiveCapability().value, step.now);
      }
    }
  }

  lemma {:induction false} ClockClimbs(w: World, run: seq<Step>)
    requires Valid(w, run)
    ensures w.clock <= Execute(w, run).clock
    decreases |run|
  {
    if run != [] {
      ClockClimbs(Apply(w, run[0]), run[1..]);
    }
  }

  lemma {:induction false} RememberedRun(w: World, run: seq<Step>, last: Step, key: EventKey, since: Instant)
    requires Inv(w.parser, w.clock) && Recent(key, since) in w.parser.recent
    requires Valid(w, run) && Undisturbed(w, run, key)
    requires Enabled(Execute(w, run), last) && Completes(Execute(w, run), last, key)
    ensures last.now >= since + RECENT_TTL
    decreases |run|
  {
    if run == [] {
      RememberedStep(w, last, key, since);
    } else {
      var next := Apply(w, run[0]);
      StepInv(w, run[0]);
      RememberedStep(w, run[0], key, since);
      if next.clock >= since + RECENT_TTL {
        ClockClimbs(next, run[1..]);
      } else {
        RememberedRun(next, run[1..], last, key, since);
      }
    }
  }

  /**
   * Two completions of the same key, with any run in between that neither evicts it nor changes the configuration,
   * are at least two seconds apart.
   */
  lemma DigitsSpaced(w: World, first: Step, run: seq<Step>, last: Step, key: EventKey)
    requires Inv(w.parser, w.clock) && Enabled(w, first) && Completes(w, first, key) && !Evicts(w, first, key)
    requires Valid(Apply(w, first), run) && Undisturbed(Apply(w, first), run, key)
    requires Enabled(Execute(Apply(w, first), run), last) && Completes(Execute(Apply(w, first), run), last, key)
    ensures last.now - first.now >= 2_000_000_000
  {
    CompletionRemembered(w, first, key);
    StepInv(w, first);
    RememberedRun(Apply(w, first), run, last, key, first.now);
  }

  /** One step never completes a key twice. */
  lemma CompletedOnce(w: World, step: Step, i: nat, j: nat)
    requires Inv(w.parser, w.clock) && Enabled(w, step) && i < j < |Reports(w, step)|
    requires Reports(w, step)[i].Digit? && Reports(w, step)[j].Digit?
    ensures Reports(w, step)[i].completed.key != Reports(w, step)[j].completed.key
  {
    ReportSource(w, step, i);
    ReportSource(w, step, j);
    if FromEvent(w, step, j) {
      var s := w.parser.Expire(step.now, step.order);
      var rtp, capability := DtmfParse(step.packet).value, w.parser.config.ActiveCapability().value;
      assert |s.Event(rtp, capability, step.now).1| <= 1;
      EventCompletes(s, rtp, capability, step.now);
      ExpiredRecent(w, step);
      assert s.recent[|w.parser.Prune(step.now).recent| + i].key == step.order[i];
    }
  }
}
