/** What the payload attributes of a session description say, and when they can be read. */
module SdpPayloads {
  import opened Prelude
  import opened Text
  import DtmfTypes
  import opened Sdp

  // ---- Payload attributes ----

  /** Encoding, clock rate and possibly a number of channels. */
  predicate FieldsSay(fields: seq<string>, rtpmap: Rtpmap) {
    && (|fields| == 2 || |fields| == 3)
    && fields[0] == rtpmap.encoding && rtpmap.encoding != ""
    && ParseUint(fields[1], 0xFFFF_FFFF) == Some(rtpmap.clockRate) && rtpmap.clockRate > 0
    && (|fields| == 2 ==> rtpmap.channels == None)
    && (|fields| == 3 ==>
          rtpmap.channels.Some? && rtpmap.channels.value > 0 && ParseUint(fields[2], 255) == rtpmap.channels)
  }

  /** The line maps the payload type to an encoding. */
  predicate Maps(line: string, t: nat, rtpmap: Rtpmap) {
    && "a=rtpmap:" <= line && SplitOnceWhite(line[9..]).Some?
    && var (number, mapping) := SplitOnceWhite(line[9..]).value;
       ParseUint(number, 127) == Some(t) && FieldsSay(SplitOn(Trim(mapping), '/'), rtpmap)
  }

  /** The line gives the payload type's format parameters. */
  predicate Formats(line: string, t: nat, parameters: string) {
    && "a=fmtp:" <= line && SplitOnceWhite(line[7..]).Some?
    && var (number, text) := SplitOnceWhite(line[7..]).value;
       ParseUint(number, 127) == Some(t) && Trim(text) == parameters != ""
  }

  lemma MappingExactly(value: string, line: string, t: nat, rtpmap: Rtpmap)
    ensures ParseRtpmap(value, line) == Ok((t, rtpmap)) <==>
            && SplitOnceWhite(value).Some? && ParseUint(SplitOnceWhite(value).value.0, 127) == Some(t)
            && FieldsSay(SplitOn(Trim(SplitOnceWhite(value).value.1), '/'), rtpmap)
  {
  }

  lemma MapsExactly(line: string, t: nat, rtpmap: Rtpmap)
    ensures AttributeOf(line) == Mapping(t, rtpmap) <==> Maps(line, t, rtpmap)
  {
    if "a=rtpmap:" <= line {
      MappingExactly(line[9..], line, t, rtpmap);
    }
  }

  lemma FormatsExactly(line: string, t: nat, parameters: string)
    ensures AttributeOf(line) == Format(t, parameters) <==> Formats(line, t, parameters)
  {
    assert StartsWith(line, "a=rtpmap:") ==> line[2] == 'r';
    assert StartsWith(line, "a=fmtp:") ==> line[2] == 'f';
  }

  ghost predicate MapsSome(line: string) { exists t, rtpmap :: Maps(line, t, rtpmap) }

  ghost predicate FormatsSome(line: string) { exists t, parameters :: Formats(line, t, parameters) }

  /** Every payload attribute can be read, whether its type is offered or not. */
  ghost predicate Readable(lines: seq<string>) {
    forall i :: 0 <= i < |lines| ==>
      ("a=rtpmap:" <= lines[i] ==> MapsSome(lines[i])) && ("a=fmtp:" <= lines[i] ==> FormatsSome(lines[i]))
  }

  /** No offered type is mapped or given parameters by two lines. */
  ghost predicate Unrepeated(lines: seq<string>, types: seq<nat>) {
    && (forall i, j, t, a, b :: 0 <= i < j < |lines| && t in types ==> !(Maps(lines[i], t, a) && Maps(lines[j], t, b)))
    && forall i, j, t, a, b :: 0 <= i < j < |lines| && t in types ==>
         !(Formats(lines[i], t, a) && Formats(lines[j], t, b))
  }

  ghost predicate Mapped(lines: seq<string>, t: nat, rtpmap: Rtpmap) {
    exists i :: 0 <= i < |lines| && Maps(lines[i], t, rtpmap)
  }

  ghost predicate Formatted(lines: seq<string>, t: nat, parameters: string) {
    exists i :: 0 <= i < |lines| && Formats(lines[i], t, parameters)
  }

  /** The payload reports what the lines say of its type, and nothing else. */
  ghost predicate PayloadSays(lines: seq<string>, t: nat, payload: AudioPayload) {
    payload.payloadType == t && EncodingSays(lines, t, payload) && FmtpSays(lines, t, payload.fmtp)
  }

  ghost predicate FmtpSays(lines: seq<string>, t: nat, fmtp: Option<string>) {
    && (forall parameters :: Formatted(lines, t, parameters) ==> fmtp == Some(parameters))
    && ((forall parameters :: !Formatted(lines, t, parameters)) ==> fmtp == None)
  }

  ghost predicate EncodingSays(lines: seq<string>, t: nat, payload: AudioPayload) {
    && (forall rtpmap :: Mapped(lines, t, rtpmap) ==>
          && payload.encoding == Some(rtpmap.encoding) && payload.clockRate == Some(rtpmap.clockRate)
          && payload.channels == rtpmap.channels)
    && ((forall rtpmap :: !Mapped(lines, t, rtpmap)) ==>
          payload.encoding == None && payload.clockRate == None && payload.channels == None)
  }

  ghost predicate PayloadsSay(lines: seq<string>, types: seq<nat>, payloads: seq<AudioPayload>) {
    && Readable(lines) && Unrepeated(lines, types) && |payloads| == |types|
    && forall i :: 0 <= i < |types| ==> PayloadSays(lines, types[i], payloads[i])
  }

  // The same of the attributes the lines are read as.

  predicate Clashing(a: Attribute, b: Attribute, offered: set<nat>) {
    || (a.Mapping? && b.Mapping? && a.payloadType == b.payloadType && a.payloadType in offered)
    || (a.Format? && b.Format? && a.payloadType == b.payloadType && a.payloadType in offered)
  }

  predicate Known(a: Attribute, known: Attributes, offered: set<nat>) {
    || (a.Mapping? && a.payloadType in offered && a.payloadType in known.rtpmaps)
    || (a.Format? && a.payloadType in offered && a.payloadType in known.fmtps)
  }

  ghost predicate Collectable(attributes: seq<Attribute>, offered: set<nat>, known: Attributes) {
    && (forall i :: 0 <= i < |attributes| ==> !attributes[i].Malformed? && !Known(attributes[i], known, offered))
    && forall i, j :: 0 <= i < j < |attributes| ==> !Clashing(attributes[i], attributes[j], offered)
  }

  lemma {:induction false} CollectableExactly(attributes: seq<Attribute>, offered: set<nat>, known: Attributes)
    ensures Collect(attributes, offered, known).Ok? <==> Collectable(attributes, offered, known)
    decreases |attributes|
  {
    if attributes != [] {
      var next, rest := Absorb(attributes[0], offered, known), attributes[1..];
      assert attributes == [attributes[0]] + rest;
      if next.Ok? {
        CollectableExactly(rest, offered, next.value);
        assert forall i :: 0 <= i < |rest| ==>
          (Known(rest[i], next.value, offered) <==>
            Known(rest[i], known, offered) || Clashing(attributes[0], rest[i], offered));
        CollectableRest(attributes, offered, known, next.value);
      }
    }
  }

  lemma CollectableRest(attributes: seq<Attribute>, offered: set<nat>, known: Attributes, next: Attributes)
    requires attributes != [] && Absorb(attributes[0], offered, known) == Ok(next)
    requires forall i :: 0 <= i < |attributes[1..]| ==>
               (Known(attributes[1..][i], next, offered) <==>
                 Known(attributes[1..][i], known, offered) || Clashing(attributes[0], attributes[1..][i], offered))
    ensures Collectable(attributes, offered, known) <==> Collectable(attributes[1..], offered, next)
  {
    var rest := attributes[1..];
    assert forall i :: 1 <= i < |attributes| ==> attributes[i] == rest[i - 1];
    assert forall i :: 0 <= i < |rest| ==> rest[i] == attributes[i + 1];
    if Collectable(rest, offered, next) {
      forall i, j | 0 <= i < j < |attributes| ensures !Clashing(attributes[i], attributes[j], offered) {
        assert !Known(rest[j - 1], next, offered);
        assert i > 0 ==> !Clashing(rest[i - 1], rest[j - 1], offered);
      }
      forall i | 0 <= i < |attributes|
        ensures !attributes[i].Malformed? && !Known(attributes[i], known, offered)
      {
        assert i > 0 ==> !rest[i - 1].Malformed? && !Known(rest[i - 1], next, offered);
      }
    }
    if Collectable(attributes, offered, known) {
      forall i | 0 <= i < |rest| ensures !rest[i].Malformed? && !Known(rest[i], next, offered) {
        assert !Clashing(attributes[0], attributes[i + 1], offered);
      }
    }
  }

  /** Once an offered type has parameters it keeps them. */
  lemma {:induction false} ParametersKept(attributes: seq<Attribute>, offered: set<nat>, known: Attributes, t: nat)
    requires Sdp.Collect(attributes, offered, known).Ok? && t in known.fmtps && t in offered
    ensures var r := Sdp.Collect(attributes, offered, known).value;
            t in r.fmtps && r.fmtps[t] == known.fmtps[t]
    ensures forall i :: 0 <= i < |attributes| ==> !(attributes[i].Format? && attributes[i].payloadType == t)
    decreases |attributes|
  {
    if attributes != [] {
      ParametersKept(attributes[1..], offered, Absorb(attributes[0], offered, known).value, t);
      assert attributes == [attributes[0]] + attributes[1..];
    }
  }

  /** An offered type has parameters exactly if some line declares them, and then those. */
  lemma {:induction false} ParametersExact(attributes: seq<Attribute>, offered: set<nat>, known: Attributes, t: nat)
    requires Sdp.Collect(attributes, offered, known).Ok? && t in offered && t !in known.fmtps
    ensures var r := Sdp.Collect(attributes, offered, known).value;
            && (t in r.fmtps <==>
               exists i :: 0 <= i < |attributes| && attributes[i].Format? && attributes[i].payloadType == t)
            && forall i :: 0 <= i < |attributes| && attributes[i].Format? && attributes[i].payloadType == t ==>
                 r.fmtps[t] == attributes[i].parameters
    decreases |attributes|
  {
    if attributes != [] {
      var next := Absorb(attributes[0], offered, known).value;
      assert attributes == [attributes[0]] + attributes[1..];
      if t in next.fmtps {
        ParametersKept(attributes[1..], offered, next, t);
      } else {
        ParametersExact(attributes[1..], offered, next, t);
      }
    }
  }

  function Offered(types: seq<nat>): set<nat> { set t | t in types }

  const NOTHING := Attributes(map[], map[])

  /** The attributes of the lines are what the lines say. */
  lemma AttributesExactly(lines: seq<string>)
    ensures forall i, t, rtpmap :: 0 <= i < |lines| ==>
              (AttributesOf(lines)[i] == Mapping(t, rtpmap) <==> Maps(lines[i], t, rtpmap))
    ensures forall i, t, parameters :: 0 <= i < |lines| ==>
              (AttributesOf(lines)[i] == Format(t, parameters) <==> Formats(lines[i], t, parameters))
    ensures (forall i :: 0 <= i < |lines| ==> !AttributesOf(lines)[i].Malformed?) <==> Readable(lines)
  {
    forall i, t, rtpmap | 0 <= i < |lines|
      ensures AttributesOf(lines)[i] == Mapping(t, rtpmap) <==> Maps(lines[i], t, rtpmap)
    {
      MapsExactly(lines[i], t, rtpmap);
    }
    forall i, t, parameters | 0 <= i < |lines|
      ensures AttributesOf(lines)[i] == Format(t, parameters) <==> Formats(lines[i], t, parameters)
    {
      FormatsExactly(lines[i], t, parameters);
    }
    forall i | 0 <= i < |lines|
      ensures !AttributesOf(lines)[i].Malformed? <==>
              ("a=rtpmap:" <= lines[i] ==> MapsSome(lines[i])) && ("a=fmtp:" <= lines[i] ==> FormatsSome(lines[i]))
    {
      ReadableExactly(lines[i]);
    }
  }

  lemma ReadableExactly(line: string)
    ensures !AttributeOf(line).Malformed? <==>
            ("a=rtpmap:" <= line ==> MapsSome(line)) && ("a=fmtp:" <= line ==> FormatsSome(line))
  {
    assert "a=rtpmap:" <= line ==> line[2] == 'r';
    assert "a=fmtp:" <= line ==> line[2] == 'f';
    forall t, rtpmap ensures AttributeOf(line) == Mapping(t, rtpmap) <==> Maps(line, t, rtpmap) {
      MapsExactly(line, t, rtpmap);
    }
    forall t, parameters ensures AttributeOf(line) == Format(t, parameters) <==> Formats(line, t, parameters) {
      FormatsExactly(line, t, parameters);
    }
    match AttributeOf(line)
    case Mapping(t, rtpmap) => assert Maps(line, t, rtpmap);
    case Format(t, parameters) => assert Formats(line, t, parameters);
    case Malformed(_) =>
    case Unrelated =>
  }

  /** The attributes can be collected exactly if each can be read and no offered type has two of a kind. */
  lemma CollectsExactly(lines: seq<string>, types: seq<nat>)
    ensures Sdp.Collect(AttributesOf(lines), Offered(types), NOTHING).Ok? <==>
            Readable(lines) && Unrepeated(lines, types)
  {
    var offered, attributes := Offered(types), AttributesOf(lines);
    CollectableExactly(attributes, offered, NOTHING);
    AttributesExactly(lines);
    if Collectable(attributes, offered, NOTHING) {
      UnrepeatedIfCollectable(lines, types);
    }
    if Readable(lines) && Unrepeated(lines, types) {
      forall i, j | 0 <= i < j < |attributes| ensures !Clashing(attributes[i], attributes[j], offered) {
        var a, b := attributes[i], attributes[j];
        assert a.Mapping? ==> Maps(lines[i], a.payloadType, a.rtpmap);
        assert b.Mapping? ==> Maps(lines[j], b.payloadType, b.rtpmap);
        assert a.Format? ==> Formats(lines[i], a.payloadType, a.parameters);
        assert b.Format? ==> Formats(lines[j], b.payloadType, b.parameters);
      }
    }
  }

  lemma UnrepeatedIfCollectable(lines: seq<string>, types: seq<nat>)
    requires Collectable(AttributesOf(lines), Offered(types), NOTHING)
    ensures Unrepeated(lines, types)
  {
    var offered, attributes := Offered(types), AttributesOf(lines);
    forall i, j, t, a, b | 0 <= i < j < |lines| && t in types
      ensures !(Maps(lines[i], t, a) && Maps(lines[j], t, b))
    {
      MapsExactly(lines[i], t, a);
      MapsExactly(lines[j], t, b);
      assert !Clashing(attributes[i], attributes[j], offered);
    }
    forall i, j, t, a, b | 0 <= i < j < |lines| && t in types
      ensures !(Formats(lines[i], t, a) && Formats(lines[j], t, b))
    {
      FormatsExactly(lines[i], t, a);
      FormatsExactly(lines[j], t, b);
      assert !Clashing(attributes[i], attributes[j], offered);
    }
  }

  /** The lines map an offered type exactly as the collected attributes do. */
  lemma MappedExactly(lines: seq<string>, offered: set<nat>, t: nat, rtpmap: Rtpmap)
    requires Sdp.Collect(AttributesOf(lines), offered, NOTHING).Ok? && t in offered
    ensures var r := Sdp.Collect(AttributesOf(lines), offered, NOTHING).value;
            Mapped(lines, t, rtpmap) <==> t in r.rtpmaps && r.rtpmaps[t] == rtpmap
  {
    var attributes := AttributesOf(lines);
    var r := Sdp.Collect(attributes, offered, NOTHING).value;
    MappingsExact(attributes, offered, NOTHING, t);
    if i :| 0 <= i < |lines| && Maps(lines[i], t, rtpmap) {
      MapsExactly(lines[i], t, rtpmap);
      assert attributes[i] == Mapping(t, rtpmap);
    }
    if t in r.rtpmaps && r.rtpmaps[t] == rtpmap {
      var i :| 0 <= i < |attributes| && attributes[i].Mapping? && attributes[i].payloadType == t;
      MapsExactly(lines[i], t, rtpmap);
    }
  }

  lemma FormattedExactly(lines: seq<string>, offered: set<nat>, t: nat, parameters: string)
    requires Sdp.Collect(AttributesOf(lines), offered, NOTHING).Ok? && t in offered
    ensures var r := Sdp.Collect(AttributesOf(lines), offered, NOTHING).value;
            Formatted(lines, t, parameters) <==> t in r.fmtps && r.fmtps[t] == parameters
  {
    var attributes := AttributesOf(lines);
    var r := Sdp.Collect(attributes, offered, NOTHING).value;
    ParametersExact(attributes, offered, NOTHING, t);
    if i :| 0 <= i < |lines| && Formats(lines[i], t, parameters) {
      FormatsExactly(lines[i], t, parameters);
      assert attributes[i] == Format(t, parameters);
    }
    if t in r.fmtps && r.fmtps[t] == parameters {
      var i :| 0 <= i < |attributes| && attributes[i].Format? && attributes[i].payloadType == t;
      FormatsExactly(lines[i], t, parameters);
    }
  }

  lemma EncodingExactly(lines: seq<string>, offered: set<nat>, t: nat, payload: AudioPayload)
    requires Sdp.Collect(AttributesOf(lines), offered, NOTHING).Ok? && t in offered
    ensures var r := Sdp.Collect(AttributesOf(lines), offered, NOTHING).value;
            var built := PayloadOf(t, r);
            EncodingSays(lines, t, payload) <==>
              && payload.encoding == built.encoding && payload.clockRate == built.clockRate
              && payload.channels == built.channels
  {
    var r := Sdp.Collect(AttributesOf(lines), offered, NOTHING).value;
    forall rtpmap ensures Mapped(lines, t, rtpmap) <==> t in r.rtpmaps && r.rtpmaps[t] == rtpmap {
      MappedExactly(lines, offered, t, rtpmap);
    }
    assert t in r.rtpmaps ==> Mapped(lines, t, r.rtpmaps[t]);
  }

  lemma FmtpExactly(lines: seq<string>, offered: set<nat>, t: nat, fmtp: Option<string>)
    requires Sdp.Collect(AttributesOf(lines), offered, NOTHING).Ok? && t in offered
    ensures FmtpSays(lines, t, fmtp) <==>
            fmtp == PayloadOf(t, Sdp.Collect(AttributesOf(lines), offered, NOTHING).value).fmtp
  {
    var r := Sdp.Collect(AttributesOf(lines), offered, NOTHING).value;
    forall parameters ensures Formatted(lines, t, parameters) <==> t in r.fmtps && r.fmtps[t] == parameters {
      FormattedExactly(lines, offered, t, parameters);
    }
    assert t in r.fmtps ==> Formatted(lines, t, r.fmtps[t]);
  }

  /** A payload reports what the lines say exactly if it is built from the collected attributes. */
  lemma PayloadExactly(lines: seq<string>, offered: set<nat>, t: nat, payload: AudioPayload)
    requires Sdp.Collect(AttributesOf(lines), offered, NOTHING).Ok? && t in offered
    ensures PayloadSays(lines, t, payload) <==>
            payload == PayloadOf(t, Sdp.Collect(AttributesOf(lines), offered, NOTHING).value)
  {
    EncodingExactly(lines, offered, t, payload);
    FmtpExactly(lines, offered, t, payload.fmtp);
  }

  // ---- Telephone events ----

  /** One event, or an inclusive range of events; events are bytes. */
  predicate ItemSays(item: string, low: nat, high: nat) {
    var text := Trim(item);
    var (from, upto) := if '-' in text && SplitOnce(text, '-').Some? then SplitOnce(text, '-').value else (text, text);
    && text != "" && low <= high
    && ParseUint(Trim(from), 255) == Some(low) && ParseUint(Trim(upto), 255) == Some(high)
  }

  ghost predicate ItemHas(item: string, e: nat) {
    exists low: nat, high: nat :: ItemSays(item, low, high) && low <= e <= high
  }

  ghost predicate ItemReads(item: string) { exists low: nat, high: nat :: ItemSays(item, low, high) }

  ghost predicate SomeHas(items: seq<string>, e: nat) { exists i :: 0 <= i < |items| && ItemHas(items[i], e) }

  /** Every item of the list can be read, and the events are those some item has. */
  ghost predicate EventsSay(value: string, events: set<nat>) {
    var items := SplitOn(value, ',');
    && (forall i :: 0 <= i < |items| ==> ItemReads(items[i]))
    && forall e: nat :: e in events <==> SomeHas(items, e)
  }

  /** The capability a telephone-event payload declares; without parameters it is the sixteen DTMF digits. */
  ghost predicate CapabilitySays(payload: AudioPayload, c: DtmfTypes.Capability) {
    && c.payloadType == payload.payloadType && payload.clockRate == Some(c.clockRate)
    && (payload.fmtp.None? ==> forall e: nat :: e in c.events <==> e <= 15)
    && (payload.fmtp.Some? ==> EventsSay(payload.fmtp.value, c.events))
    && (c.detectable <==> c.clockRate == 8000 && exists e :: e in c.events && e <= 15)
  }

  predicate ForEvents(payload: AudioPayload) {
    payload.encoding.Some? && EqIgnoreCase(payload.encoding.value, "telephone-event")
  }

  /** At most one payload is for telephone events, and its capability is reported. */
  ghost predicate EventSays(payloads: seq<AudioPayload>, event: Option<DtmfTypes.Capability>) {
    && (event.None? ==> NoneForEvents(payloads))
    && (event.Some? ==> exists k :: 0 <= k < |payloads| && OnlyEvents(payloads, k) &&
                                    CapabilitySays(payloads[k], event.value))
  }

  predicate NoneForEvents(payloads: seq<AudioPayload>) {
    forall i :: 0 <= i < |payloads| ==> !ForEvents(payloads[i])
  }

  predicate OnlyEvents(payloads: seq<AudioPayload>, k: nat)
    requires k < |payloads|
  {
    ForEvents(payloads[k]) && forall i :: 0 <= i < |payloads| && i != k ==> !ForEvents(payloads[i])
  }

  lemma {:induction false} DashFound(text: string)
    ensures '-' in text <==> SplitOnce(text, '-').Some?
  {
    if text != [] && text[0] != '-' {
      DashFound(text[1..]);
      assert text == [text[0]] + text[1..];
    }
  }

  lemma ItemExactly(item: string, low: nat, high: nat)
    ensures ItemSays(item, low, high) <==> ParseEvents(item) == Some((low, high))
  {
    DashFound(Trim(item));
  }

  lemma ItemRange(item: string)
    ensures ItemReads(item) <==> ParseEvents(item).Some?
    ensures forall e: nat :: ItemHas(item, e) <==> Covers(ParseEvents(item), e)
  {
    if ParseEvents(item).Some? {
      var (low, high) := ParseEvents(item).value;
      ItemExactly(item, low, high);
    }
    if low: nat, high: nat :| ItemSays(item, low, high) {
      ItemExactly(item, low, high);
    }
  }

  lemma EventSetReads(items: seq<string>)
    ensures EventSet(EventRanges(items)).Some? <==> forall i :: 0 <= i < |items| ==> ItemReads(items[i])
  {
    var ranges := EventRanges(items);
    forall i | 0 <= i < |items| ensures ItemReads(items[i]) <==> ranges[i].Some? {
      ItemRange(items[i]);
    }
    RangesRead(ranges);
  }

  lemma {:induction false} RangesRead(ranges: seq<Option<(nat, nat)>>)
    ensures EventSet(ranges).Some? <==> forall i :: 0 <= i < |ranges| ==> ranges[i].Some?
  {
    if ranges != [] {
      RangesRead(ranges[..|ranges| - 1]);
    }
  }

  lemma EventSetHas(items: seq<string>, e: nat)
    requires EventSet(EventRanges(items)).Some?
    ensures e in EventSet(EventRanges(items)).value <==> SomeHas(items, e)
  {
    var ranges := EventRanges(items);
    EventsExact(ranges, e);
    forall i | 0 <= i < |items| ensures ItemHas(items[i], e) <==> Covers(ranges[i], e) {
      ItemRange(items[i]);
    }
  }

  lemma ItemReadHas(items: seq<string>)
    requires items != [] && ItemReads(items[0])
    ensures exists e: nat :: SomeHas(items, e)
  {
    var low: nat, high: nat :| ItemSays(items[0], low, high);
    assert ItemHas(items[0], low);
    assert SomeHas(items, low);
  }

  lemma EventsExactly(value: string, events: set<nat>)
    ensures EventsSay(value, events) <==> ParseEventSet(value) == Ok(events)
  {
    var items := SplitOn(value, ',');
    EventSetReads(items);
    var read := EventSet(EventRanges(items));
    if read.Some? {
      forall e: nat ensures e in read.value <==> SomeHas(items, e) {
        EventSetHas(items, e);
      }
      ItemReadHas(items);
      SameEvents(items, events, read.value);
    }
  }

  lemma SameEvents(items: seq<string>, events: set<nat>, read: set<nat>)
    requires forall e: nat :: e in read <==> SomeHas(items, e)
    ensures (forall e: nat :: e in events <==> SomeHas(items, e)) <==> events == read
  {
    if forall e: nat :: e in events <==> SomeHas(items, e) {
      assert forall e: nat :: e in events <==> e in read;
    }
  }

  lemma CapabilityExactly(payload: AudioPayload, c: DtmfTypes.Capability)
    ensures CapabilitySays(payload, c) <==> TelephoneEvent(payload) == Ok(c)
  {
    if payload.fmtp.Some? {
      EventsExactly(payload.fmtp.value, c.events);
    } else if CapabilitySays(payload, c) {
      assert c.events == Range(0, 15);
    }
  }

  /** The loop finds the one telephone-event payload, unless there are two or it cannot be read. */
  lemma {:induction false} FindsExactly(payloads: seq<AudioPayload>, found: Option<DtmfTypes.Capability>)
    ensures var r := FindTelephoneEvent(payloads, found);
            && (found.Some? ==> (r.Ok? <==> NoneForEvents(payloads)) && (r.Ok? ==> r.value == found))
            && (found.None? ==> forall event :: r == Ok(event) <==> EventSays(payloads, event))
    decreases |payloads|
  {
    if payloads != [] {
      var rest := payloads[1..];
      assert payloads == [payloads[0]] + rest;
      assert NoneForEvents(payloads) <==> !ForEvents(payloads[0]) && NoneForEvents(rest);
      if !ForEvents(payloads[0]) {
        FindsExactly(rest, found);
        forall event ensures EventSays(payloads, event) <==> EventSays(rest, event) {
          EventSaysRest(payloads, event);
        }
      } else if found.None? {
        EventSaysFirst(payloads);
        if TelephoneEvent(payloads[0]).Ok? {
          FindsExactly(rest, Some(TelephoneEvent(payloads[0]).value));
        }
      }
    }
  }

  lemma EventSaysRest(payloads: seq<AudioPayload>, event: Option<DtmfTypes.Capability>)
    requires payloads != [] && !ForEvents(payloads[0])
    ensures EventSays(payloads, event) <==> EventSays(payloads[1..], event)
  {
    var rest := payloads[1..];
    assert forall i :: 1 <= i < |payloads| ==> payloads[i] == rest[i - 1];
    assert forall i :: 0 <= i < |rest| ==> rest[i] == payloads[i + 1];
    if event.Some? {
      if k :| 0 <= k < |payloads| && OnlyEvents(payloads, k) && CapabilitySays(payloads[k], event.value) {
        assert OnlyEvents(rest, k - 1);
      }
      if k :| 0 <= k < |rest| && OnlyEvents(rest, k) && CapabilitySays(rest[k], event.value) {
        assert OnlyEvents(payloads, k + 1);
      }
    }
  }

  lemma EventSaysFirst(payloads: seq<AudioPayload>)
    requires payloads != [] && ForEvents(payloads[0])
    ensures forall event :: EventSays(payloads, event) <==>
              NoneForEvents(payloads[1..]) && event.Some? && TelephoneEvent(payloads[0]) == Ok(event.value)
  {
    forall event ensures EventSays(payloads, event) <==>
                         NoneForEvents(payloads[1..]) && event.Some? && TelephoneEvent(payloads[0]) == Ok(event.value)
    {
      if event.Some? {
        CapabilityExactly(payloads[0], event.value);
        assert OnlyEvents(payloads, 0) <==> NoneForEvents(payloads[1..]) by {
          assert forall i :: 1 <= i < |payloads| ==> payloads[i] == payloads[1..][i - 1];
          assert forall i :: 0 <= i < |payloads| - 1 ==> payloads[1..][i] == payloads[i + 1];
        }
        assert forall k :: 0 < k < |payloads| ==> !OnlyEvents(payloads, k);
      }
    }
  }

  /** The payloads and the capability are reported exactly if the lines say them. */
  lemma PayloadsExactly(lines: seq<string>, types: seq<nat>, payloads: seq<AudioPayload>,
                        event: Option<DtmfTypes.Capability>)
    ensures AudioPayloads(lines, types) == Ok((payloads, event)) <==>
            PayloadsSay(lines, types, payloads) && EventSays(payloads, event)
  {
    CollectsExactly(lines, types);
    var collected := Sdp.Collect(AttributesOf(lines), Offered(types), NOTHING);
    FindsExactly(payloads, None);
    if collected.Ok? {
      forall i | 0 <= i < |types| && i < |payloads|
        ensures PayloadSays(lines, types[i], payloads[i]) <==> payloads[i] == PayloadOf(types[i], collected.value)
      {
        PayloadExactly(lines, Offered(types), types[i], payloads[i]);
      }
      assert PayloadsSay(lines, types, payloads) <==> payloads == Payloads(types, collected.value);
    }
  }
}
