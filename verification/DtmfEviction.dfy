/** When exactly an end packet completes its key, and how an evicted key completes again early. */
module DtmfEviction {
  import opened Prelude
  import opened DtmfTypes
  import opened Rtp
  import opened DtmfParser
  import opened DtmfRuns
  import opened DtmfPresses

  /** The event part of an end packet for a key that is not pressed. */
  lemma FreshEnd(s: Parser, rtp: Parsed, capability: Capability, now: Instant)
    requires s.Load() <= STATE_CAPACITY && |rtp.payload| >= 4 && rtp.payload[1] >= 128
    requires EventKey(rtp.ssrc, rtp.timestamp, rtp.payload[0]) !in s.active
    ensures var key := EventKey(rtp.ssrc, rtp.timestamp, rtp.payload[0]);
            var reports := s.Event(rtp, capability, now).1;
            if !Negotiated(key.event, capability) || s.Remembers(key) then reports == []
            else if |s.active| < 32 then |reports| == 1 && reports[0].Digit? && reports[0].completed.key == key
            else reports == [Invalid]
  {
    MakeRoomEvictsOldest(s);
  }

  /** Expiry completes exactly the pressed keys whose deadline has come. */
  lemma ExpiryCompletes(w: World, step: Step, key: EventKey)
    requires Enabled(w, step) && !step.Configure?
    ensures key in step.order <==> key in w.parser.active && step.now >= w.parser.active[key].Deadline()
    ensures key in step.order ==> Completes(w, step, key)
  {
    assert key in step.order <==> key in w.parser.DueKeys(step.now);
    if key in step.order {
      var i :| 0 <= i < |step.order| && step.order[i] == key;
      assert Reports(w, step)[i] == Digit(w.parser.Completion(key, true));
    }
  }

  lemma ReportsOfEnd(w: World, step: Step, capability: Capability)
    requires Enabled(w, step) && step.Observe? && w.parser.config.ActiveCapability() == Some(capability)
    requires ReportOf(step.packet, capability).Some?
    ensures Reports(w, step)
            == w.parser.Completions(step.order)
               + w.parser.Expire(step.now, step.order).Event(DtmfParse(step.packet).value, capability, step.now).1
  {
    ExpireKeepsConfig(w.parser, step.now, step.order);
  }

  lemma ExpiryReportsOthers(w: World, step: Step, key: EventKey)
    requires Enabled(w, step) && !step.Configure? && key !in step.order
    ensures forall i :: 0 <= i < |step.order| ==> w.parser.Completions(step.order)[i].completed.key != key
  {
  }

  /** Expiry neither presses a key nor exceeds the bound. */
  lemma StillNotPressed(w: World, step: Step, key: EventKey)
    requires Inv(w.parser, w.clock) && Enabled(w, step) && !step.Configure? && key !in w.parser.active
    ensures var s := w.parser.Expire(step.now, step.order);
            s.Load() <= STATE_CAPACITY && key !in s.active && key !in step.order
  {
    ExpireInv(w.parser, w.clock, step.now, step.order);
    PruneKeepsActive(w.parser, step.now);
    CompleteAllActive(w.parser.Prune(step.now), step.order, step.now);
    ExpiryCompletes(w, step, key);
  }

  /** Whether the second part of two lists of reports names the key, when the first does not. */
  lemma CompletesInSecond(w: World, step: Step, key: EventKey, first: seq<Observation>, second: seq<Observation>)
    requires Enabled(w, step) && Reports(w, step) == first + second
    requires forall i :: 0 <= i < |first| && first[i].Digit? ==> first[i].completed.key != key
    ensures Completes(w, step, key) <==>
            exists i :: 0 <= i < |second| && second[i].Digit? && second[i].completed.key == key
  {
    if i :| 0 <= i < |second| && second[i].Digit? && second[i].completed.key == key {
      assert Reports(w, step)[|first| + i] == second[i];
    }
  }

  /**
   * The exact condition for an end packet of a key that is not pressed to complete it: its event is a negotiated
   * digit, the key is not remembered once old completions are forgotten, and fewer than 32 keys are pressed. Nothing
   * else, in particular no time since an earlier completion, matters.
   */
  lemma EndCompletesExactly(w: World, step: Step, capability: Capability, key: EventKey)
    requires Inv(w.parser, w.clock) && Enabled(w, step) && w.parser.config.ActiveCapability() == Some(capability)
    requires On(step, capability, key) && Told(step, capability).ended && key !in w.parser.active
    ensures var s := w.parser.Expire(step.now, step.order);
            Completes(w, step, key) <==> Negotiated(key.event, capability) && !s.Remembers(key) && |s.active| < 32
  {
    var s, rtp := w.parser.Expire(step.now, step.order), DtmfParse(step.packet).value;
    StillNotPressed(w, step, key);
    ExpiryReportsOthers(w, step, key);
    FreshEnd(s, rtp, capability, step.now);
    ReportsOfEnd(w, step, capability);
    CompletesInSecond(w, step, key, w.parser.Completions(step.order), s.Event(rtp, capability, step.now).1);
  }

  /** For a pressed key an end packet completes it unless it comes in time with a shrinking duration. */
  lemma PressedEndCompletesExactly(w: World, step: Step, capability: Capability, key: EventKey, heard: Heard)
    requires Pressed(w, capability, key, heard) && Enabled(w, step)
    requires On(step, capability, key) && Told(step, capability).ended
    ensures Completes(w, step, key) <==> step.now >= heard.Due() || Told(step, capability).duration >= heard.longest
  {
    ExpiryCompletes(w, step, key);
    if step.now < heard.Due() {
      if Told(step, capability).duration >= heard.longest {
        EndReports(w, step, capability, key, heard);
      } else {
        SteadyHere(w, step, capability, key, heard);
      }
    }
  }

  // ---- A digit completed twice at the same instant ----

  const EVENT_ZERO := Capability(101, 8_000, {0}, true)

  const LISTENING := ParserConfig(1, Some(EVENT_ZERO), MediaMode.Observe)

  /** The key of the i-th press of event 0. */
  function KeyAt(i: nat): EventKey { EventKey(7, i, 0) }

  /** The packet is the end packet of the i-th press, of 160 samples. */
  predicate IsEnd(packet: seq<byte>, i: nat) { DtmfParse(packet) == Some(Parsed(101, i, 7, [0, 0x80, 0, 160])) }

  /** There is such a packet for every press. */
  lemma EndPacket(i: nat) returns (packet: seq<byte>)
    requires i <= U32_MAX
    ensures IsEnd(packet, i)
  {
    packet := TtsPacket([0, 0x80, 0, 160], 101, i, 0, 7);
    TtsParses([0, 0x80, 0, 160], 101, i, 0, 7);
  }

  function Hear(packet: seq<byte>): Step { Step.Observe(packet, 0, []) }

  lemma EndTells(packet: seq<byte>, i: nat)
    requires IsEnd(packet, i)
    ensures On(Hear(packet), EVENT_ZERO, KeyAt(i)) && Told(Hear(packet), EVENT_ZERO) == Report(KeyAt(i), 160, true)
  {
  }

  function Memory(low: nat, n: nat): seq<Recent> { seq(n, i requires 0 <= i < n => Recent(KeyAt(low + i), 0)) }

  /** A parser at time 0 that remembers n presses, from the low-th on, and has none pressed. */
  function Remembering(low: nat, n: nat): World { World(Parser(LISTENING, map[], Memory(low, n)), 0) }

  lemma {:induction false} NothingForgotten(s: Parser)
    requires forall i :: 0 <= i < |s.recent| ==> s.recent[i].at == 0
    ensures s.Prune(0) == s
  {
  }

  lemma RememberingValid(low: nat, n: nat)
    requires n <= STATE_CAPACITY
    ensures var w := Remembering(low, n);
            && Inv(w.parser, w.clock) && w.parser.config.ActiveCapability() == Some(EVENT_ZERO)
            && w.parser.Prune(0) == w.parser && w.parser.DueKeys(0) == {}
            && (forall i: nat :: w.parser.Remembers(KeyAt(i)) <==> low <= i < low + n)
  {
    var s := Remembering(low, n).parser;
    NothingForgotten(s);
    forall i | low <= i < low + n ensures s.Remembers(KeyAt(i)) {
      assert s.recent[i - low].key == KeyAt(i);
    }
  }

  /** What is left of a step at time 0 that expires nothing. */
  lemma HearApplied(low: nat, n: nat, packet: seq<byte>, i: nat)
    requires n <= STATE_CAPACITY && IsEnd(packet, i)
    ensures var w := Remembering(low, n);
            && Enabled(w, Hear(packet)) && w.parser.Expire(0, []) == w.parser
            && Apply(w, Hear(packet)) == World(w.parser.Event(DtmfParse(packet).value, EVENT_ZERO, 0).0, 0)
  {
    RememberingValid(low, n);
    assert Remembering(low, n).parser.Expire(0, []) == Remembering(low, n).parser;
  }

  /** A press that is not remembered completes. */
  lemma OneMoreCompletes(w: World, low: nat, n: nat, packet: seq<byte>, i: nat)
    requires w == Remembering(low, n) && n <= STATE_CAPACITY && IsEnd(packet, i) && !(low <= i < low + n)
    ensures Enabled(w, Hear(packet)) && Completes(w, Hear(packet), KeyAt(i))
  {
    RememberingValid(low, n);
    HearApplied(low, n, packet, i);
    EndTells(packet, i);
    EndCompletesExactly(w, Hear(packet), EVENT_ZERO, KeyAt(i));
  }

  /** The event part of a completing end packet: it is remembered as the newest. */
  lemma FreshEndRemembered(s: Parser, rtp: Parsed, capability: Capability, now: Instant)
    requires s.Load() <= STATE_CAPACITY && s.active == map[] && |rtp.payload| >= 4 && rtp.payload[1] >= 128
    requires !s.Remembers(EventKey(rtp.ssrc, rtp.timestamp, rtp.payload[0]))
    requires MapEvent(rtp.payload[0], capability).Some?
    ensures var key := EventKey(rtp.ssrc, rtp.timestamp, rtp.payload[0]);
            s.Event(rtp, capability, now).0 == s.(recent := s.MakeRoom().recent + [Recent(key, now)])
  {
    MakeRoomEvictsOldest(s);
  }

  lemma MemoryNext(low: nat, n: nat)
    ensures Memory(low, n) + [Recent(KeyAt(low + n), 0)] == Memory(low, n + 1)
    ensures n > 0 ==> Memory(low, n)[1..] + [Recent(KeyAt(low + n), 0)] == Memory(low + 1, n)
  {
  }

  /** One more press is remembered; in a full state it takes the place of the oldest. */
  function Next(low: nat, n: nat): World {
    if n < STATE_CAPACITY then Remembering(low, n + 1) else Remembering(low + 1, n)
  }

  lemma NextOf(low: nat, n: nat, rtp: Parsed)
    requires n <= STATE_CAPACITY && rtp == Parsed(101, low + n, 7, [0, 0x80, 0, 160])
    ensures Remembering(low, n).parser.Event(rtp, EVENT_ZERO, 0).0 == Next(low, n).parser
  {
    RememberingValid(low, n);
    FreshEndRemembered(Remembering(low, n).parser, rtp, EVENT_ZERO, 0);
    MakeRoomEvictsOldest(Remembering(low, n).parser);
    MemoryNext(low, n);
  }

  ghost predicate Moves(w: World, step: Step, next: World) { Enabled(w, step) && Apply(w, step) == next }

  lemma OneMoreNext(low: nat, n: nat, packet: seq<byte>, w: World, next: World)
    requires n <= STATE_CAPACITY && IsEnd(packet, low + n) && w == Remembering(low, n) && next == Next(low, n)
    ensures Moves(w, Hear(packet), next)
  {
    HearApplied(low, n, packet, low + n);
    NextOf(low, n, DtmfParse(packet).value);
  }

  /** The packets are the end packets of successive presses. */
  ghost predicate AreEnds(packets: seq<seq<byte>>, low: nat) {
    forall i :: 0 <= i < |packets| ==> IsEnd(packets[i], low + i)
  }

  function HearAll(packets: seq<seq<byte>>): seq<Step> {
    seq(|packets|, i requires 0 <= i < |packets| => Hear(packets[i]))
  }

  /** The oldest remembered press, and the number of remembered ones, after n presses. */
  function Oldest(low: nat, n: nat): nat { if n <= STATE_CAPACITY then low else low + n - STATE_CAPACITY }

  function Kept(n: nat): nat { if n <= STATE_CAPACITY then n else STATE_CAPACITY }

  /** The world after n presses. */
  function After(low: nat, n: nat): World { Remembering(Oldest(low, n), Kept(n)) }

  lemma AfterShape(low: nat, n: nat)
    ensures Kept(n) <= STATE_CAPACITY && Oldest(low, n) + Kept(n) == low + n
    ensures Next(Oldest(low, n), Kept(n)) == After(low, n + 1)
  {
  }

  /** A chain of worlds is a run. */
  lemma {:induction false} Chain(worlds: seq<World>, run: seq<Step>)
    requires |worlds| == |run| + 1 && forall i :: 0 <= i < |run| ==> Moves(worlds[i], run[i], worlds[i + 1])
    ensures Valid(worlds[0], run) && Execute(worlds[0], run) == worlds[|run|]
    decreases |run|
  {
    if run != [] {
      assert Moves(worlds[0], run[0], worlds[0 + 1]);
      assert forall i :: 0 <= i < |run| - 1 ==> Moves(worlds[1..][i], run[1..][i], worlds[1..][i + 1]) by {
        forall i | 0 <= i < |run| - 1 ensures Moves(worlds[1..][i], run[1..][i], worlds[1..][i + 1]) {
          assert Moves(worlds[1 + i], run[1 + i], worlds[1 + i + 1]);
        }
      }
      Chain(worlds[1..], run[1..]);
    }
  }

  lemma AfterNext(low: nat, n: nat, packet: seq<byte>, w: World, next: World)
    requires IsEnd(packet, low + n) && w == After(low, n) && next == After(low, n + 1)
    ensures Moves(w, Hear(packet), next)
  {
    AfterShape(low, n);
    OneMoreNext(Oldest(low, n), Kept(n), packet, w, next);
  }

  lemma AfterAll(low: nat, packets: seq<seq<byte>>)
    requires AreEnds(packets, low)
    ensures Valid(After(low, 0), HearAll(packets))
    ensures Execute(After(low, 0), HearAll(packets)) == After(low, |packets|)
  {
    var worlds := seq(|packets| + 1, i requires 0 <= i <= |packets| => After(low, i));
    forall i | 0 <= i < |packets| ensures Moves(worlds[i], HearAll(packets)[i], worlds[i + 1]) {
      assert IsEnd(packets[i], low + i);
      AfterNext(low, i, packets[i], worlds[i], worlds[i + 1]);
    }
    Chain(worlds, HearAll(packets));
  }

  /** A further press evicts the oldest of a full state. */
  lemma OldestEvicted(low: nat, packet: seq<byte>)
    requires IsEnd(packet, low + STATE_CAPACITY)
    ensures var full := Remembering(low, STATE_CAPACITY);
            && full.parser.Load() == STATE_CAPACITY && full.parser.Remembers(KeyAt(low))
            && Enabled(full, Hear(packet)) && Evicts(full, Hear(packet), KeyAt(low))
  {
    RememberingValid(low, STATE_CAPACITY);
    RememberingValid(low + 1, STATE_CAPACITY);
    OneMoreNext(low, STATE_CAPACITY, packet, Remembering(low, STATE_CAPACITY), Remembering(low + 1, STATE_CAPACITY));
    HearApplied(low, STATE_CAPACITY, packet, low + STATE_CAPACITY);
  }

  /** End packets of n successive presses. */
  lemma EndPackets(low: nat, n: nat) returns (packets: seq<seq<byte>>)
    requires low + n <= U32_MAX
    ensures |packets| == n && AreEnds(packets, low)
  {
    packets := [];
    for i := 0 to n
      invariant |packets| == i && AreEnds(packets, low)
    {
      var packet := EndPacket(low + i);
      packets := packets + [packet];
    }
  }

  lemma AreEndsPrefix(packets: seq<seq<byte>>, low: nat, n: nat)
    requires AreEnds(packets, low) && n <= |packets|
    ensures AreEnds(packets[..n], low)
  {
    forall i | 0 <= i < n ensures IsEnd(packets[..n][i], low + i) {
      assert IsEnd(packets[i], low + i);
    }
  }

  /**
   * The witness: a new parser hears a press and then as many others as it can remember, of which the last evicts the
   * first. The first one's end packet completes it once more, at the same instant.
   */
  lemma EvictedCompletesAgain(start: World, low: nat)
    returns (packets: seq<seq<byte>>, full: World, end: World)
    requires start == World(Parser(LISTENING, map[], []), 0) && low + STATE_CAPACITY < U32_MAX
    ensures |packets| == STATE_CAPACITY + 1
    ensures Enabled(start, Hear(packets[0])) && Completes(start, Hear(packets[0]), KeyAt(low))
    ensures Valid(start, HearAll(packets[..STATE_CAPACITY]))
            && full == Execute(start, HearAll(packets[..STATE_CAPACITY]))
    ensures Enabled(full, Hear(packets[STATE_CAPACITY])) && Evicts(full, Hear(packets[STATE_CAPACITY]), KeyAt(low))
    ensures Valid(start, HearAll(packets)) && end == Execute(start, HearAll(packets)) && end.clock == 0
    ensures Enabled(end, Hear(packets[0])) && Completes(end, Hear(packets[0]), KeyAt(low))
  {
    packets := EndPackets(low, STATE_CAPACITY + 1);
    assert IsEnd(packets[0], low + 0) && IsEnd(packets[STATE_CAPACITY], low + STATE_CAPACITY);
    assert start == Remembering(low, 0) == After(low, 0);
    full, end := Remembering(low, STATE_CAPACITY), Remembering(low + 1, STATE_CAPACITY);
    OneMoreCompletes(start, low, 0, packets[0], low);
    AreEndsPrefix(packets, low, STATE_CAPACITY);
    AfterAll(low, packets[..STATE_CAPACITY]);
    OldestEvicted(low, packets[STATE_CAPACITY]);
    AfterAll(low, packets);
    OneMoreCompletes(end, low + 1, STATE_CAPACITY, packets[0], low);
  }
}
