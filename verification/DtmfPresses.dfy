/** A press from its first event packet to its end: it is reported once, with its digit and its longest duration. */
module DtmfPresses {
  import opened Prelude
  import opened DtmfTypes
  import opened Rtp
  import opened DtmfParser
  import opened DtmfRuns

  /** An event packet, as laid out in section 2.3 of RFC 4733. */
  datatype Report = Report(key: EventKey, duration: nat, ended: bool)

  function ReportOf(packet: seq<byte>, capability: Capability): Option<Report> {
    var rtp := DtmfParse(packet);
    if rtp.None? || rtp.value.payloadType != capability.payloadType || |rtp.value.payload| < 4 then None
    else
      var p := rtp.value.payload;
      Some(Report(EventKey(rtp.value.ssrc, rtp.value.timestamp, p[0]), Be16(p[2], p[3]), p[1] >= 128))
  }

  /** The step's packet reports on the key. */
  predicate On(step: Step, capability: Capability, key: EventKey) {
    step.Observe? && ReportOf(step.packet, capability).Some? && ReportOf(step.packet, capability).value.key == key
  }

  function Told(step: Step, capability: Capability): Report
    requires step.Observe? && ReportOf(step.packet, capability).Some?
  {
    ReportOf(step.packet, capability).value
  }

  /** The key is still pressed after expiry, and not remembered as completed. */
  lemma StillPressed(w: World, step: Step, key: EventKey)
    requires Inv(w.parser, w.clock) && Enabled(w, step) && !step.Configure?
    requires key in w.parser.active && step.now < w.parser.active[key].Deadline()
    ensures var s := w.parser.Expire(step.now, step.order);
            && s.config == w.parser.config && Inv(s, step.now)
            && key in s.active && s.active[key] == w.parser.active[key] && !s.Remembers(key)
    ensures key !in step.order
  {
    ExpireInv(w.parser, w.clock, step.now, step.order);
    PruneKeepsActive(w.parser, step.now);
    CompleteAllActive(w.parser.Prune(step.now), step.order, step.now);
    assert key !in w.parser.DueKeys(step.now);
  }

  /** What an event packet does to another key, and what it reports. */
  lemma EventElsewhere(s: Parser, rtp: Parsed, capability: Capability, now: Instant, key: EventKey)
    requires s.Load() <= STATE_CAPACITY && key in s.active
    requires |rtp.payload| >= 4 ==> EventKey(rtp.ssrc, rtp.timestamp, rtp.payload[0]) != key
    ensures var (t, reports) := s.Event(rtp, capability, now);
            && t.config == s.config && key in t.active && t.active[key] == s.active[key]
            && forall i :: 0 <= i < |reports| && reports[i].Digit? ==> reports[i].completed.key != key
  {
    MakeRoomEvictsOldest(s);
  }

  /** What the key's packets have told so far: times of the first and the last accepted one, and its duration. */
  datatype Heard = Heard(first: Instant, last: Instant, longest: nat) {
    /** The press is given up 250 ms after the last packet, and 10 s after the first one. */
    function Due(): Instant { Min(last + 250_000_000, first + 10_000_000_000) }

    /** A packet with a shorter duration than one before it is not accepted. */
    function Next(step: Step, capability: Capability, key: EventKey): Heard {
      if On(step, capability, key) && Told(step, capability).duration >= longest
      then Heard(first, step.now, Told(step, capability).duration) else this
    }
  }

  /** The report of a press: digits are named by their event, durations converted to at most ten seconds. */
  function Reported(generation: nat, key: EventKey, duration: nat, rate: nat, incomplete: bool): Observation {
    var ms := if rate == 0 then 0 else duration * 1000 / rate;
    Digit(Completed(generation, key, key.event, Min(ms, 10_000), incomplete))
  }

  /** Events 0 to 16 stand for digits, if they were negotiated. */
  predicate Negotiated(event: nat, capability: Capability) { event in capability.events && event <= 16 }

  /** The parser follows the key's press as it was heard. */
  ghost predicate Pressed(w: World, capability: Capability, key: EventKey, heard: Heard) {
    && Inv(w.parser, w.clock) && w.parser.config.ActiveCapability() == Some(capability)
    && key in w.parser.active && Negotiated(key.event, capability)
    && w.parser.active[key] == Press(key.event, heard.longest, heard.first, heard.last)
  }

  /** What an event packet for a pressed key does. */
  lemma EventHere(s: Parser, rtp: Parsed, capability: Capability, now: Instant, key: EventKey)
    requires s.Load() <= STATE_CAPACITY && |rtp.payload| >= 4 && s.config.ActiveCapability() == Some(capability)
    requires key == EventKey(rtp.ssrc, rtp.timestamp, rtp.payload[0]) && Negotiated(key.event, capability)
    requires key in s.active && s.active[key].digit == key.event && !s.Remembers(key)
    ensures var duration := Be16(rtp.payload[2], rtp.payload[3]);
            var (t, reports) := s.Event(rtp, capability, now);
            && t.config == s.config
            && (duration < s.active[key].maxDuration ==> t == s && reports == [Invalid])
            && (duration >= s.active[key].maxDuration && rtp.payload[1] < 128 ==>
                  reports == [] && key in t.active
                  && t.active[key] == s.active[key].(maxDuration := duration, lastSeen := now))
            && (duration >= s.active[key].maxDuration && rtp.payload[1] >= 128 ==>
                  reports == [Reported(s.config.generation, key, duration, capability.clockRate, false)])
  {
  }

  /** The step does not end the press: it is in time, keeps the configuration, and is no accepted end packet of it. */
  ghost predicate Steady(step: Step, capability: Capability, key: EventKey, heard: Heard) {
    && !step.Configure? && step.now < heard.Due()
    && !(On(step, capability, key) && Told(step, capability).ended && Told(step, capability).duration >= heard.longest)
  }

  lemma SteadyElsewhere(w: World, step: Step, capability: Capability, key: EventKey, heard: Heard)
    requires Pressed(w, capability, key, heard) && Enabled(w, step) && Steady(step, capability, key, heard)
    requires !On(step, capability, key)
    ensures var next := Apply(w, step).parser;
            && next.config == w.parser.config && key in next.active && next.active[key] == w.parser.active[key]
            && !Completes(w, step, key)
  {
    StillPressed(w, step, key);
    var s := w.parser.Expire(step.now, step.order);
    assert forall i :: 0 <= i < |step.order| ==> w.parser.Completions(step.order)[i].completed.key != key;
    if step.Observe? && DtmfParse(step.packet).Some?
      && DtmfParse(step.packet).value.payloadType == capability.payloadType {
      EventElsewhere(s, DtmfParse(step.packet).value, capability, step.now, key);
    }
  }

  lemma SteadyHere(w: World, step: Step, capability: Capability, key: EventKey, heard: Heard)
    requires Pressed(w, capability, key, heard) && Enabled(w, step) && Steady(step, capability, key, heard)
    requires On(step, capability, key)
    ensures var next, h := Apply(w, step).parser, heard.Next(step, capability, key);
            && next.config == w.parser.config && key in next.active
            && next.active[key] == Press(key.event, h.longest, h.first, h.last)
            && !Completes(w, step, key)
  {
    StillPressed(w, step, key);
    assert forall i :: 0 <= i < |step.order| ==> w.parser.Completions(step.order)[i].completed.key != key;
    EventHere(w.parser.Expire(step.now, step.order), DtmfParse(step.packet).value, capability, step.now, key);
  }

  /** A step that does not end the press keeps following it, and does not report it. */
  lemma SteadyStep(w: World, step: Step, capability: Capability, key: EventKey, heard: Heard)
    requires Pressed(w, capability, key, heard) && Enabled(w, step) && Steady(step, capability, key, heard)
    ensures Pressed(Apply(w, step), capability, key, heard.Next(step, capability, key)) && !Completes(w, step, key)
    ensures Apply(w, step).parser.config == w.parser.config
  {
    StepInv(w, step);
    if On(step, capability, key) {
      SteadyHere(w, step, capability, key, heard);
    } else {
      SteadyElsewhere(w, step, capability, key, heard);
    }
  }

  /** An accepted end packet in time reports the press, after whatever expired. */
  lemma EndReports(w: World, step: Step, capability: Capability, key: EventKey, heard: Heard)
    requires Pressed(w, capability, key, heard) && Enabled(w, step) && !step.Configure? && step.now < heard.Due()
    requires On(step, capability, key) && Told(step, capability).ended
    requires Told(step, capability).duration >= heard.longest
    ensures Reported(w.parser.config.generation, key, Told(step, capability).duration, capability.clockRate, false)
            in Reports(w, step)
  {
    StillPressed(w, step, key);
    var s, rtp := w.parser.Expire(step.now, step.order), DtmfParse(step.packet).value;
    EventHere(s, rtp, capability, step.now, key);
    assert Reports(w, step) == w.parser.Completions(step.order) + s.Event(rtp, capability, step.now).1;
  }

  /** No step of the run ends the press. */
  ghost predicate Held(run: seq<Step>, capability: Capability, key: EventKey, heard: Heard)
    decreases |run|
  {
    run != [] ==>
      Steady(run[0], capability, key, heard) && Held(run[1..], capability, key, heard.Next(run[0], capability, key))
  }

  function HeardAfter(run: seq<Step>, capability: Capability, key: EventKey, heard: Heard): Heard
    decreases |run|
  {
    if run == [] then heard else HeardAfter(run[1..], capability, key, heard.Next(run[0], capability, key))
  }

  /** No step of the run reports the key. */
  ghost predicate Silent(w: World, run: seq<Step>, key: EventKey)
    requires Valid(w, run)
    decreases |run|
  {
    run != [] ==> !Completes(w, run[0], key) && Silent(Apply(w, run[0]), run[1..], key)
  }

  lemma {:induction false} HeldRun(w: World, run: seq<Step>, capability: Capability, key: EventKey, heard: Heard)
    requires Pressed(w, capability, key, heard) && Valid(w, run) && Held(run, capability, key, heard)
    ensures Silent(w, run, key)
    ensures var end := Execute(w, run);
            && Pressed(end, capability, key, HeardAfter(run, capability, key, heard))
            && end.parser.config == w.parser.config
    decreases |run|
  {
    if run != [] {
      SteadyStep(w, run[0], capability, key, heard);
      HeldRun(Apply(w, run[0]), run[1..], capability, key, heard.Next(run[0], capability, key));
    }
  }

  /** The step is the first packet of a press: the key is new, its event negotiated, and fewer than 32 keys pressed. */
  ghost predicate Begins(w: World, step: Step, capability: Capability, key: EventKey)
    requires Enabled(w, step)
  {
    && w.parser.config.ActiveCapability() == Some(capability)
    && On(step, capability, key) && !Told(step, capability).ended && Negotiated(key.event, capability)
    && var s := w.parser.Expire(step.now, step.order);
       key !in s.active && !s.Remembers(key) && |s.active| < 32
  }

  /** What the first packet tells. */
  function HeardFirst(step: Step, capability: Capability): Heard
    requires step.Observe? && ReportOf(step.packet, capability).Some?
  {
    Heard(step.now, step.now, Told(step, capability).duration)
  }

  lemma PressBegins(w: World, step: Step, capability: Capability, key: EventKey)
    requires Inv(w.parser, w.clock) && Enabled(w, step) && Begins(w, step, capability, key)
    ensures Pressed(Apply(w, step), capability, key, HeardFirst(step, capability))
    ensures Apply(w, step).parser.config == w.parser.config
  {
    StepInv(w, step);
    ExpireInv(w.parser, w.clock, step.now, step.order);
    ExpireKeepsConfig(w.parser, step.now, step.order);
    MakeRoomEvictsOldest(w.parser.Expire(step.now, step.order));
  }

  /**
   * A whole press: from its first packet, over any run that does not end it and interleaves anything else, to an end
   * packet in time. Nothing is reported for it before, and then its digit, with the duration of the end packet.
   */
  lemma PressReported(w: World, first: Step, run: seq<Step>, last: Step, capability: Capability, key: EventKey)
    requires Inv(w.parser, w.clock) && Enabled(w, first) && Begins(w, first, capability, key)
    requires Valid(Apply(w, first), run) && Held(run, capability, key, HeardFirst(first, capability))
    requires Enabled(Execute(Apply(w, first), run), last) && !last.Configure?
    requires var heard := HeardAfter(run, capability, key, HeardFirst(first, capability));
             && last.now < heard.Due() && On(last, capability, key) && Told(last, capability).ended
             && Told(last, capability).duration >= heard.longest
    ensures Silent(Apply(w, first), run, key)
    ensures Reported(w.parser.config.generation, key, Told(last, capability).duration, capability.clockRate, false)
            in Reports(Execute(Apply(w, first), run), last)
  {
    PressBegins(w, first, capability, key);
    HeldRun(Apply(w, first), run, capability, key, HeardFirst(first, capability));
    EndReports(Execute(Apply(w, first), run), last, capability, key,
               HeardAfter(run, capability, key, HeardFirst(first, capability)));
  }

  /** Expiry reports a followed press exactly when it is due, with its longest duration. */
  lemma LostReports(w: World, step: Step, capability: Capability, key: EventKey, heard: Heard)
    requires Pressed(w, capability, key, heard) && Enabled(w, step) && !step.Configure?
    ensures step.now >= heard.Due() <==>
            Reported(w.parser.config.generation, key, heard.longest, capability.clockRate, true) in Reports(w, step)
  {
    var report := Reported(w.parser.config.generation, key, heard.longest, capability.clockRate, true);
    var reports := Reports(w, step);
    assert forall i :: 0 <= i < |step.order| ==> reports[i] == Digit(w.parser.Completion(step.order[i], true));
    assert step.now >= heard.Due() <==> key in w.parser.DueKeys(step.now);
    if key in w.parser.DueKeys(step.now) {
      var i :| 0 <= i < |step.order| && step.order[i] == key;
      assert reports[i] == report;
    } else {
      NotIncomplete(w, step, key);
      assert Incomplete(report, key);
    }
  }

  ghost predicate Incomplete(o: Observation, key: EventKey) {
    o.Digit? && o.completed.incomplete && o.completed.key == key
  }

  /** Only expiry reports an incomplete press. */
  lemma NotIncomplete(w: World, step: Step, key: EventKey)
    requires Enabled(w, step) && !step.Configure? && key !in step.order
    ensures forall i :: 0 <= i < |Reports(w, step)| ==> !Incomplete(Reports(w, step)[i], key)
  {
    forall i | 0 <= i < |Reports(w, step)| && Reports(w, step)[i].Digit?
      ensures !Incomplete(Reports(w, step)[i], key)
    {
      ReportSource(w, step, i);
    }
  }

  /**
   * A press whose end is lost: from its first packet, over any run that does not end it, the first step at or after
   * its time reports its digit as incomplete, with the longest duration told.
   */
  lemma LostPressReported(w: World, first: Step, run: seq<Step>, last: Step, capability: Capability, key: EventKey)
    requires Inv(w.parser, w.clock) && Enabled(w, first) && Begins(w, first, capability, key)
    requires Valid(Apply(w, first), run) && Held(run, capability, key, HeardFirst(first, capability))
    requires Enabled(Execute(Apply(w, first), run), last) && !last.Configure?
    ensures Silent(Apply(w, first), run, key)
    ensures var heard := HeardAfter(run, capability, key, HeardFirst(first, capability));
            last.now >= heard.Due() <==>
            Reported(w.parser.config.generation, key, heard.longest, capability.clockRate, true)
            in Reports(Execute(Apply(w, first), run), last)
  {
    PressBegins(w, first, capability, key);
    HeldRun(Apply(w, first), run, capability, key, HeardFirst(first, capability));
    LostReports(Execute(Apply(w, first), run), last, capability, key,
                HeardAfter(run, capability, key, HeardFirst(first, capability)));
  }

  // ---- Malformed and unexpected packets ----

  /** A report the parser looks at, after expiry: its event is negotiated and not remembered as completed. */
  ghost predicate Considered(s: Parser, report: Report, capability: Capability) {
    report.key.event in capability.events && report.key.event <= 16 && !s.Remembers(report.key)
  }

  lemma {:induction false} RoomUnlessHeld(s: Parser)
    ensures s.MakeRoom().Load() >= 32 <==> |s.active| >= 32
    ensures s.MakeRoom().active == s.active
    decreases |s.recent|
  {
    if s.Load() >= STATE_CAPACITY && s.recent != [] {
      RoomUnlessHeld(s.(recent := s.recent[1..]));
    }
  }

  /**
   * A packet is reported as invalid exactly if it cannot be read, is an event packet shorter than four bytes, takes
   * back duration already told, or begins a press while 32 others are held.
   */
  lemma InvalidExactly(parser: Parser, packet: seq<byte>, now: Instant, order: seq<EventKey>, capability: Capability)
    requires Orders(order, parser.DueKeys(now)) && parser.config.ActiveCapability() == Some(capability)
    ensures var s, rtp := parser.Expire(now, order), DtmfParse(packet);
            Invalid in parser.Observe(packet, now, order).1 <==>
              || rtp.None?
              || (rtp.value.payloadType == capability.payloadType && |rtp.value.payload| < 4)
              || (ReportOf(packet, capability).Some? &&
                  var report := ReportOf(packet, capability).value;
                  && Considered(s, report, capability)
                  && (if report.key in s.active then report.duration < s.active[report.key].maxDuration
                      else |s.active| >= 32))
  {
    var s := parser.Expire(now, order);
    RoomUnlessHeld(s);
    PruneKeepsActive(parser, now);
    assert Invalid !in parser.Completions(order);
  }
}
