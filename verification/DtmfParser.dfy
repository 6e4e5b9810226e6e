/** The RFC 4733 digit parser: a bounded, timed, deduplicating machine over RTP packets. */
module DtmfParser {
  import opened Prelude
  import opened DtmfTypes
  import opened Rtp

  /** Nanoseconds of the monotonic clock. */
  type Instant = nat

  const STATE_CAPACITY: nat := 32
  const RECENT_TTL: nat := 2_000_000_000
  const IDLE_TIMEOUT: nat := 250_000_000
  const MAX_PRESS_DURATION: nat := 10_000_000_000
  const MAX_PRESS_MS: nat := 10_000

  datatype EventKey = EventKey(ssrc: nat, timestamp: nat, event: nat)

  datatype Press = Press(digit: nat, maxDuration: nat, firstSeen: Instant, lastSeen: Instant) {
    function Deadline(): Instant { Min(lastSeen + IDLE_TIMEOUT, firstSeen + MAX_PRESS_DURATION) }
  }

  datatype Completed = Completed(generation: nat, key: EventKey, digit: nat, durationMs: nat, incomplete: bool)

  datatype Observation = Digit(completed: Completed) | Invalid

  datatype Recent = Recent(key: EventKey, at: Instant)

  /** Events 0 to 16 are digits, if negotiated; the digit is named by its event code. */
  function MapEvent(event: nat, capability: Capability): Option<nat> {
    if event in capability.events && event <= 16 then Some(event) else None
  }

  datatype Parser = Parser(config: ParserConfig, active: map<EventKey, Press>, recent: seq<Recent>) {
    predicate Remembers(key: EventKey) { exists i :: 0 <= i < |recent| && recent[i].key == key }

    function Load(): nat { |active| + |recent| }

    /** Forgets completions that are two seconds old. */
    function Prune(now: Instant): Parser
      decreases |recent|
    {
      if recent != [] && SatSub(now, recent[0].at) >= RECENT_TTL then this.(recent := recent[1..]).Prune(now) else this
    }

    function DueKeys(now: Instant): set<EventKey> { set key | key in active && active[key].Deadline() <= now }

    function Completion(key: EventKey, incomplete: bool): Completed
      requires key in active
    {
      var rate := if config.ActiveCapability().Some? then config.ActiveCapability().value.clockRate else 8000;
      var ms := if rate == 0 then 0 else active[key].maxDuration * 1000 / rate;
      Completed(config.generation, key, active[key].digit, Min(ms, MAX_PRESS_MS), incomplete)
    }

    function Complete(key: EventKey, now: Instant): Parser
      requires key in active
    {
      this.(active := active - {key}, recent := recent + [Recent(key, now)])
    }

    /** Completes the keys in the given order. */
    function CompleteAll(order: seq<EventKey>, now: Instant): Parser
      requires Lists(order, active.Keys)
      decreases |order|
    {
      if order == [] then this
      else
        ListsTail(order, active.Keys);
        Complete(order[0], now).CompleteAll(order[1..], now)
    }

    /** expire; the hash map's iteration order is a parameter */
    function Expire(now: Instant, order: seq<EventKey>): Parser
      requires Orders(order, DueKeys(now))
    {
      PruneKeepsActive(this, now);
      Prune(now).CompleteAll(order, now)
    }

    /** What completing the keys reports. */
    function Completions(order: seq<EventKey>): seq<Observation>
      requires Lists(order, active.Keys)
    {
      seq(|order|, i requires 0 <= i < |order| => Digit(Completion(order[i], true)))
    }

    /** Evicts the oldest completions while the state is full. */
    function MakeRoom(): Parser
      decreases |recent|
    {
      if Load() >= STATE_CAPACITY && recent != [] then this.(recent := recent[1..]).MakeRoom() else this
    }

    function Touch(key: EventKey, digit: nat, duration: nat, now: Instant): Parser {
      var press := if key in active then active[key] else Press(digit, duration, now, now);
      this.(active := active[key := press.(maxDuration := Max(press.maxDuration, duration), lastSeen := now)])
    }

    /** The event packet part of observe_packet, after expiry. */
    function Event(rtp: Parsed, capability: Capability, now: Instant): (Parser, seq<Observation>) {
      if |rtp.payload| < 4 then (this, [Invalid])
      else
        var event := rtp.payload[0];
        var key := EventKey(rtp.ssrc, rtp.timestamp, event);
        var duration := Be16(rtp.payload[2], rtp.payload[3]);
        if MapEvent(event, capability).None? || Remembers(key) then (this, [])
        else if key in active && duration < active[key].maxDuration then (this, [Invalid])
        else
          var s := if key in active then this else MakeRoom();
          if key !in active && s.Load() >= STATE_CAPACITY then (s, [Invalid])
          else
            var t := s.Touch(key, MapEvent(event, capability).value, duration, now);
            if rtp.payload[1] >= 128 then (t.Complete(key, now), [Digit(t.Completion(key, false))]) else (t, [])
    }

    function Observe(packet: seq<byte>, now: Instant, order: seq<EventKey>): (Parser, seq<Observation>)
      requires Orders(order, DueKeys(now))
    {
      var s := Expire(now, order);
      if config.ActiveCapability().None? then (s, Completions(order))
      else
        var capability := config.ActiveCapability().value;
        var rtp := DtmfParse(packet);
        if rtp.None? then (s, Completions(order) + [Invalid])
        else if rtp.value.payloadType != capability.payloadType then (s, Completions(order))
        else
          var (t, more) := s.Event(rtp.value, capability, now);
          (t, Completions(order) + more)
    }

    function Configure(config: ParserConfig): Parser {
      if this.config == config then this else Parser(config, map[], [])
    }
  }

  /** The sequence names elements of the set, none twice. */
  ghost predicate Lists<T>(order: seq<T>, elements: set<T>) {
    && (forall i :: 0 <= i < |order| ==> order[i] in elements)
    && forall i, j :: 0 <= i < j < |order| ==> order[i] != order[j]
  }

  /** The sequence enumerates the set. */
  ghost predicate Orders<T>(order: seq<T>, elements: set<T>) {
    Lists(order, elements) && forall x :: x in elements ==> x in order
  }

  lemma ListsTail<T>(order: seq<T>, elements: set<T>)
    requires Lists(order, elements) && order != []
    ensures order[0] in elements && Lists(order[1..], elements - {order[0]})
  {
  }

  lemma PruneKeepsActive(s: Parser, now: Instant)
    ensures s.Prune(now).active == s.active && s.Prune(now).config == s.config
    decreases |s.recent|
  {
  }

  method Enumerate<T(==)>(elements: set<T>) returns (order: seq<T>)
    ensures Orders(order, elements)
  {
    order := [];
    var left := elements;
    while left != {}
      invariant left <= elements && Orders(order, elements - left)
    {
      var x :| x in left;
      left := left - {x};
      order := order + [x];
    }
  }

  /** The parser object of one relay direction. */
  class Rfc4733Parser {
    var config: ParserConfig
    var active: map<EventKey, Press>
    var recent: seq<Recent>

    ghost function View(): Parser reads this { Parser(config, active, recent) }

    constructor (config: ParserConfig)
      ensures View() == Parser(config, map[], [])
    {
      this.config, active, recent := config, map[], [];
    }

    method UpdateConfig(config: ParserConfig)
      modifies this
      ensures View() == old(View()).Configure(config)
    {
      if this.config != config {
        this.config, active, recent := config, map[], [];
      }
    }

    method PruneRecent(now: Instant)
      modifies `recent
      ensures View() == old(View()).Prune(now)
    {
      while recent != [] && SatSub(now, recent[0].at) >= RECENT_TTL
        invariant View().Prune(now) == old(View()).Prune(now)
        decreases |recent|
      {
        recent := recent[1..];
      }
    }

    method Complete(key: EventKey, incomplete: bool, now: Instant) returns (completed: Completed)
      requires key in active
      modifies `active, `recent
      ensures View() == old(View()).Complete(key, now)
      ensures completed == old(View()).Completion(key, incomplete)
    {
      var press := active[key];
      active := active - {key};
      recent := recent + [Recent(key, now)];
      var capability := config.ActiveCapability();
      var rate := if capability.Some? then capability.value.clockRate else 8000;
      var ms := if rate == 0 then 0 else press.maxDuration * 1000 / rate;
      completed := Completed(config.generation, key, press.digit, Min(ms, MAX_PRESS_MS), incomplete);
    }

    method Expire(now: Instant) returns (observations: seq<Observation>, order: seq<EventKey>)
      modifies this
      ensures Orders(order, old(View()).DueKeys(now))
      ensures View() == old(View()).Expire(now, order)
      ensures observations == old(View()).Completions(order)
    {
      PruneKeepsActive(View(), now);
      PruneRecent(now);
      order := Enumerate(set key | key in active && active[key].Deadline() <= now);
      observations := CompleteInOrder(order, now);
    }

    method CompleteInOrder(order: seq<EventKey>, now: Instant) returns (observations: seq<Observation>)
      requires Lists(order, active.Keys)
      modifies `active, `recent
      ensures View() == old(View()).CompleteAll(order, now)
      ensures observations == old(View()).Completions(order)
    {
      observations := [];
      for i := 0 to |order|
        invariant config == old(config) && forall k :: i <= k < |order| ==>
          order[k] in active && active[order[k]] == old(active)[order[k]]
        invariant Lists(order[i..], active.Keys)
        invariant View().CompleteAll(order[i..], now) == old(View()).CompleteAll(order, now)
        invariant observations == old(View()).Completions(order)[..i]
      {
        assert order[i..][0] == order[i] && order[i..][1..] == order[i + 1..];
        ListsTail(order[i..], active.Keys);
        var completed := Complete(order[i], true, now);
        observations := observations + [Digit(completed)];
      }
    }

    method ObservePacket(packet: seq<byte>, now: Instant)
      returns (observations: seq<Observation>, order: seq<EventKey>)
      modifies this
      ensures Orders(order, old(View()).DueKeys(now))
      ensures (View(), observations) == old(View()).Observe(packet, now, order)
    {
      observations, order := Expire(now);
      ExpireKeepsConfig(old(View()), now, order);
      var capability := config.ActiveCapability();
      if capability.None? {
        return;
      }
      var rtp := DtmfParse(packet);
      if rtp.None? {
        observations := observations + [Invalid];
        return;
      }
      if rtp.value.payloadType != capability.value.payloadType {
        return;
      }
      var more := ObserveEvent(rtp.value, capability.value, now);
      observations := observations + more;
    }

    method ObserveEvent(rtp: Parsed, capability: Capability, now: Instant) returns (observations: seq<Observation>)
      modifies this
      ensures (View(), observations) == old(View()).Event(rtp, capability, now)
    {
      if |rtp.payload| < 4 {
        return [Invalid];
      }
      var event := rtp.payload[0];
      var digit := MapEvent(event, capability);
      if digit.None? {
        return [];
      }
      var key := EventKey(rtp.ssrc, rtp.timestamp, event);
      if exists i :: 0 <= i < |recent| && recent[i].key == key {
        return [];
      }
      var duration := Be16(rtp.payload[2], rtp.payload[3]);
      if key in active && duration < active[key].maxDuration {
        return [Invalid];
      }
      if key !in active {
        while |active| + |recent| >= STATE_CAPACITY && recent != []
          invariant config == old(config) && active == old(active)
          invariant View().MakeRoom() == old(View()).MakeRoom()
          decreases |recent|
        {
          recent := recent[1..];
        }
        if |active| + |recent| >= STATE_CAPACITY {
          return [Invalid];
        }
      }
      var press := if key in active then active[key] else Press(digit.value, duration, now, now);
      active := active[key := press.(maxDuration := Max(press.maxDuration, duration), lastSeen := now)];
      observations := [];
      if rtp.payload[1] >= 128 {
        var completed := Complete(key, false, now);
        observations := [Digit(completed)];
      }
    }

    /** The earliest deadline of an active press, if there is one. */
    method NextDeadline() returns (deadline: Option<Instant>)
      ensures IsNextDeadline(View(), deadline)
    {
      deadline := None;
      var left := active.Keys;
      while left != {}
        invariant left <= active.Keys
        invariant deadline.None? <==> left == active.Keys
        invariant deadline.Some? ==> exists key :: key in active.Keys - left && active[key].Deadline() == deadline.value
        invariant forall key :: key in active.Keys - left ==> deadline.Some? && deadline.value <= active[key].Deadline()
      {
        var key :| key in left;
        left := left - {key};
        if deadline.None? || active[key].Deadline() < deadline.value {
          deadline := Some(active[key].Deadline());
        }
      }
    }
  }

  /** The minimum of the presses' deadlines. */
  ghost predicate IsNextDeadline(s: Parser, deadline: Option<Instant>) {
    && (deadline.None? <==> s.active == map[])
    && (deadline.Some? ==> exists key :: key in s.active && s.active[key].Deadline() == deadline.value)
    && forall key :: key in s.active && deadline.Some? ==> deadline.value <= s.active[key].Deadline()
  }

  lemma {:induction false} CompleteAllRecent(s: Parser, order: seq<EventKey>, now: Instant)
    requires Lists(order, s.active.Keys)
    ensures var t := s.CompleteAll(order, now);
            && |t.recent| == |s.recent| + |order|
            && (forall i :: 0 <= i < |s.recent| ==> t.recent[i] == s.recent[i])
            && forall i :: 0 <= i < |order| ==> t.recent[|s.recent| + i] == Recent(order[i], now)
    decreases |order|
  {
    if order != [] {
      ListsTail(order, s.active.Keys);
      var c := s.Complete(order[0], now);
      CompleteAllRecent(c, order[1..], now);
      var t := c.CompleteAll(order[1..], now);
      forall i | 0 <= i < |order| ensures t.recent[|s.recent| + i] == Recent(order[i], now) {
        if i > 0 {
          assert t.recent[|c.recent| + (i - 1)] == Recent(order[1..][i - 1], now);
        }
      }
    }
  }

  lemma {:induction false} CompleteAllRest(s: Parser, order: seq<EventKey>, now: Instant)
    requires Lists(order, s.active.Keys)
    ensures var t := s.CompleteAll(order, now);
            t.config == s.config && t.active == s.active - (set k | k in order)
    decreases |order|
  {
    if order != [] {
      ListsTail(order, s.active.Keys);
      CompleteAllRest(s.Complete(order[0], now), order[1..], now);
      assert (set k | k in order) == {order[0]} + (set k | k in order[1..]);
    }
  }

  lemma CompleteAllActive(s: Parser, order: seq<EventKey>, now: Instant)
    requires Lists(order, s.active.Keys)
    ensures var t := s.CompleteAll(order, now);
            && t.config == s.config
            && t.active == s.active - (set k | k in order)
            && |t.recent| == |s.recent| + |order|
            && (forall i :: 0 <= i < |s.recent| ==> t.recent[i] == s.recent[i])
            && forall i :: 0 <= i < |order| ==> t.recent[|s.recent| + i] == Recent(order[i], now)
  {
    CompleteAllRecent(s, order, now);
    CompleteAllRest(s, order, now);
  }

  lemma ExpireKeepsConfig(s: Parser, now: Instant, order: seq<EventKey>)
    requires Orders(order, s.DueKeys(now))
    ensures s.Expire(now, order).config == s.config
  {
    PruneKeepsActive(s, now);
    CompleteAllActive(s.Prune(now), order, now);
  }
}
