/** Parsing of audio session descriptions. */
module Sdp {
  import opened Prelude
  import opened Text
  import opened DtmfTypes

  datatype Body = Body(contentType: string, text: string)

  datatype MediaDirection = SendRecv | SendOnly | RecvOnly | Inactive

  datatype AudioPayload = AudioPayload(payloadType: nat, encoding: Option<string>, clockRate: Option<nat>,
                                       channels: Option<nat>, fmtp: Option<string>)

  datatype ParsedAudio = ParsedAudio(rtp: Address, rtcp: Option<Address>, payloadTypes: seq<nat>,
                                     payloads: seq<AudioPayload>, telephoneEvent: Option<Capability>,
                                     direction: MediaDirection)

  datatype SdpError =
    | UnsupportedContentType(value: string) | MissingMedia | MultipleMediaLines | UnsupportedMedia(value: string)
    | UnsupportedTransport(value: string) | MissingConnection | InvalidConnection(value: string)
    | InvalidMediaLine(value: string) | InvalidRtcp(value: string) | InvalidPayloadType(value: string)
    | InvalidRtpmap(value: string) | DuplicateRtpmap(payloadType: nat) | InvalidFmtp(value: string)
    | DuplicateFmtp(payloadType: nat) | UnsupportedAttribute(value: string)
    | MultipleTelephoneEvents | MissingClockRate(payloadType: nat)

  // ---- Lines ----

  function SdpLines(body: Body): Result<seq<string>, SdpError> {
    if !EqIgnoreCase(Trim(SplitOn(body.contentType, ';')[0]), "application/sdp") then
      Err(UnsupportedContentType(body.contentType))
    else Ok(Lines(body.text))
  }

  /** Index of the first line in a range that starts with the prefix. */
  function FirstIndex(lines: seq<string>, prefix: string, low: nat, high: nat): (r: Option<nat>)
    requires low <= high <= |lines|
    ensures r.Some? ==> low <= r.value < high && StartsWith(lines[r.value], prefix)
    decreases high - low
  {
    if low == high then None
    else if StartsWith(lines[low], prefix) then Some(low)
    else FirstIndex(lines, prefix, low + 1, high)
  }

  function MediaIndex(lines: seq<string>): (r: Result<nat, SdpError>)
    ensures r.Ok? ==> r.value < |lines| && StartsWith(lines[r.value], "m=")
  {
    var first := FirstIndex(lines, "m=", 0, |lines|);
    if first.None? then Err(MissingMedia)
    else if FirstIndex(lines, "m=", first.value + 1, |lines|).Some? then Err(MultipleMediaLines)
    else Ok(first.value)
  }

  function Find(lines: seq<string>, prefix: string): (r: Option<string>)
    ensures r.Some? ==> StartsWith(r.value, prefix)
  {
    if lines == [] then None else if StartsWith(lines[0], prefix) then Some(lines[0]) else Find(lines[1..], prefix)
  }

  predicate Unsupported(line: string) {
    || StartsWith(line, "a=ice-") || StartsWith(line, "a=candidate:") || StartsWith(line, "a=fingerprint:")
    || StartsWith(line, "a=setup:") || StartsWith(line, "a=group:BUNDLE") || StartsWith(line, "a=mid:")
  }

  function FirstUnsupported(lines: seq<string>): Option<string> {
    if lines == [] then None else if Unsupported(lines[0]) then Some(lines[0]) else FirstUnsupported(lines[1..])
  }

  function ParseDirection(line: string): Option<MediaDirection> {
    if line == "a=sendonly" then Some(SendOnly)
    else if line == "a=recvonly" then Some(RecvOnly)
    else if line == "a=inactive" then Some(Inactive)
    else if line == "a=sendrecv" then Some(SendRecv)
    else None
  }

  function FirstDirection(lines: seq<string>): Option<MediaDirection> {
    if lines == [] then None
    else if ParseDirection(lines[0]).Some? then ParseDirection(lines[0])
    else FirstDirection(lines[1..])
  }

  function OrElse<T>(a: Option<T>, b: Option<T>): Option<T> { if a.Some? then a else b }

  // ---- Addresses ----

  function ParseConnection(line: string, v6: Codec): Result<Ip, SdpError>
    requires StartsWith(line, "c=")
  {
    var tokens := Words(line[2..]);
    if |tokens| != 3 || tokens[0] != "IN" || (tokens[1] != "IP4" && tokens[1] != "IP6") then
      Err(InvalidConnection(line))
    else if ParseIp(tokens[2], v6).None? then Err(InvalidConnection(line))
    else Ok(ParseIp(tokens[2], v6).value)
  }

  function ParseRtcp(line: string, defaultIp: Ip, v6: Codec): Result<Address, SdpError>
    requires StartsWith(line, "a=rtcp:")
  {
    var tokens := Words(line[7..]);
    if tokens == [] || ParseUint(tokens[0], U16_MAX).None? then Err(InvalidRtcp(line))
    else
      var port := ParseUint(tokens[0], U16_MAX).value;
      if |tokens| == 1 then Ok(Address(defaultIp, port))
      else if |tokens| == 4 && tokens[1] == "IN" && (tokens[2] == "IP4" || tokens[2] == "IP6")
        && ParseIp(tokens[3], v6).Some? then
        Ok(Address(ParseIp(tokens[3], v6).value, port))
      else Err(InvalidRtcp(line))
  }

  // ---- The media line ----

  function ParsePayloadTypes(tokens: seq<string>): Result<seq<nat>, SdpError> {
    if tokens == [] then Ok([])
    else if ParseUint(tokens[0], 127).None? then Err(InvalidPayloadType(tokens[0]))
    else
      var rest := ParsePayloadTypes(tokens[1..]);
      if rest.Err? then rest else Ok([ParseUint(tokens[0], 127).value] + rest.value)
  }

  /** Port and payload types of the media line. */
  function ParseMedia(line: string): (r: Result<(nat, seq<nat>), SdpError>)
    requires StartsWith(line, "m=")
    ensures r.Ok? ==> 0 < r.value.0 <= U16_MAX && |Words(line[2..])| >= 4
  {
    var tokens := Words(line[2..]);
    if |tokens| < 4 then Err(InvalidMediaLine(line))
    else if tokens[0] != "audio" then Err(UnsupportedMedia(tokens[0]))
    else if '/' in tokens[1] then Err(InvalidMediaLine(line))
    else if ParseUint(tokens[1], U16_MAX) in {None, Some(0)} then Err(InvalidMediaLine(line))
    else if tokens[2] != "RTP/AVP" then Err(UnsupportedTransport(tokens[2]))
    else
      var types := ParsePayloadTypes(tokens[3..]);
      if types.Err? then Err(types.error) else Ok((ParseUint(tokens[1], U16_MAX).value, types.value))
  }

  // ---- Payload attributes ----

  datatype Rtpmap = Rtpmap(encoding: string, clockRate: nat, channels: Option<nat>)

  function ParseRtpmap(value: string, line: string): Result<(nat, Rtpmap), SdpError> {
    var parts := SplitOnceWhite(value);
    if parts.None? || ParseUint(parts.value.0, 127).None? then Err(InvalidRtpmap(line))
    else
      var fields := SplitOn(Trim(parts.value.1), '/');
      if !(2 <= |fields| <= 3) || fields[0] == [] || ParseUint(fields[1], U32_MAX) in {None, Some(0)} then
        Err(InvalidRtpmap(line))
      else if |fields| == 3 && ParseUint(fields[2], 255) in {None, Some(0)} then Err(InvalidRtpmap(line))
      else
        var channels := if |fields| == 3 then ParseUint(fields[2], 255) else None;
        Ok((ParseUint(parts.value.0, 127).value, Rtpmap(fields[0], ParseUint(fields[1], U32_MAX).value, channels)))
  }

  function ParseFmtp(value: string, line: string): Result<(nat, string), SdpError> {
    var parts := SplitOnceWhite(value);
    if parts.None? || ParseUint(parts.value.0, 127).None? || Trim(parts.value.1) == [] then Err(InvalidFmtp(line))
    else Ok((ParseUint(parts.value.0, 127).value, Trim(parts.value.1)))
  }

  datatype Attributes = Attributes(rtpmaps: map<nat, Rtpmap>, fmtps: map<nat, string>)

  const RTPMAP := "a=rtpmap:"
  const FMTP := "a=fmtp:"

  /** A line as far as payload attributes are concerned. */
  datatype Attribute =
    | Mapping(payloadType: nat, rtpmap: Rtpmap)
    | Format(payloadType: nat, parameters: string)
    | Malformed(error: SdpError)
    | Unrelated

  function AttributeOf(line: string): Attribute {
    if StartsWith(line, RTPMAP) then
      var r := ParseRtpmap(line[|RTPMAP|..], line);
      if r.Err? then Malformed(r.error) else Mapping(r.value.0, r.value.1)
    else if StartsWith(line, FMTP) then
      var r := ParseFmtp(line[|FMTP|..], line);
      if r.Err? then Malformed(r.error) else Format(r.value.0, r.value.1)
    else Unrelated
  }

  function AttributesOf(lines: seq<string>): seq<Attribute> {
    seq(|lines|, i requires 0 <= i < |lines| => AttributeOf(lines[i]))
  }

  /** What one line adds to the attributes of the offered payload types. */
  function Absorb(attribute: Attribute, offered: set<nat>, known: Attributes): Result<Attributes, SdpError> {
    match attribute
    case Mapping(t, rtpmap) =>
      if t !in offered then Ok(known)
      else if t in known.rtpmaps then Err(DuplicateRtpmap(t))
      else Ok(known.(rtpmaps := known.rtpmaps[t := rtpmap]))
    case Format(t, parameters) =>
      if t !in offered then Ok(known)
      else if t in known.fmtps then Err(DuplicateFmtp(t))
      else Ok(known.(fmtps := known.fmtps[t := parameters]))
    case Malformed(error) => Err(error)
    case Unrelated => Ok(known)
  }

  function Collect(attributes: seq<Attribute>, offered: set<nat>, known: Attributes): Result<Attributes, SdpError>
    decreases |attributes|
  {
    if attributes == [] then Ok(known)
    else
      var next := Absorb(attributes[0], offered, known);
      if next.Err? then next else Collect(attributes[1..], offered, next.value)
  }

  function PayloadOf(payloadType: nat, attributes: Attributes): AudioPayload {
    var fmtp := if payloadType in attributes.fmtps then Some(attributes.fmtps[payloadType]) else None;
    if payloadType in attributes.rtpmaps then
      var rtpmap := attributes.rtpmaps[payloadType];
      AudioPayload(payloadType, Some(rtpmap.encoding), Some(rtpmap.clockRate), rtpmap.channels, fmtp)
    else AudioPayload(payloadType, None, None, None, fmtp)
  }

  function Payloads(payloadTypes: seq<nat>, attributes: Attributes): seq<AudioPayload> {
    seq(|payloadTypes|, i requires 0 <= i < |payloadTypes| => PayloadOf(payloadTypes[i], attributes))
  }

  /** One event or an inclusive range. */
  function ParseEvents(item: string): Option<(nat, nat)> {
    var trimmed := Trim(item);
    var range := SplitOnce(trimmed, '-');
    var (low, high) := if range.None? then (trimmed, trimmed) else range.value;
    var start, end := ParseUint(Trim(low), 255), ParseUint(Trim(high), 255);
    if trimmed == [] || start.None? || end.None? || start.value > end.value then None
    else Some((start.value, end.value))
  }

  function Range(low: int, high: int): (r: set<nat>)
    requires 0 <= low
    ensures forall e :: e in r <==> low <= e <= high
    decreases high - low
  {
    if low > high then {} else {low} + Range(low + 1, high)
  }

  function EventRanges(items: seq<string>): seq<Option<(nat, nat)>> {
    seq(|items|, i requires 0 <= i < |items| => ParseEvents(items[i]))
  }

  /** Union of the ranges, unless one is unreadable. */
  function EventSet(ranges: seq<Option<(nat, nat)>>): Option<set<nat>> {
    if ranges == [] then Some({})
    else
      var rest, last := EventSet(ranges[..|ranges| - 1]), ranges[|ranges| - 1];
      if rest.None? || last.None? then None else Some(rest.value + Range(last.value.0, last.value.1))
  }

  function ParseEventSet(value: string): Result<set<nat>, SdpError> {
    var events := EventSet(EventRanges(SplitOn(value, ',')));
    if events.None? || events.value == {} then Err(InvalidFmtp(value)) else Ok(events.value)
  }

  function TelephoneEvent(payload: AudioPayload): Result<Capability, SdpError> {
    if payload.clockRate.None? then Err(MissingClockRate(payload.payloadType))
    else
      var events := if payload.fmtp.Some? then ParseEventSet(payload.fmtp.value) else Ok(Range(0, 15));
      if events.Err? then Err(events.error)
      else
        var detectable := payload.clockRate.value == 8_000 && exists e :: e in events.value && e <= 15;
        Ok(Capability(payload.payloadType, payload.clockRate.value, events.value, detectable))
  }

  predicate IsTelephoneEvent(payload: AudioPayload) {
    payload.encoding.Some? && EqIgnoreCase(payload.encoding.value, "telephone-event")
  }

  function FindTelephoneEvent(payloads: seq<AudioPayload>, found: Option<Capability>)
    : Result<Option<Capability>, SdpError>
    decreases |payloads|
  {
    if payloads == [] then Ok(found)
    else if !IsTelephoneEvent(payloads[0]) then FindTelephoneEvent(payloads[1..], found)
    else if found.Some? then Err(MultipleTelephoneEvents)
    else
      var capability := TelephoneEvent(payloads[0]);
      if capability.Err? then Err(capability.error) else FindTelephoneEvent(payloads[1..], Some(capability.value))
  }

  function AudioPayloads(lines: seq<string>, payloadTypes: seq<nat>)
    : Result<(seq<AudioPayload>, Option<Capability>), SdpError>
  {
    var offered := set t | t in payloadTypes;
    var attributes := Collect(AttributesOf(lines), offered, Attributes(map[], map[]));
    if attributes.Err? then Err(attributes.error)
    else
      var payloads := Payloads(payloadTypes, attributes.value);
      var event := FindTelephoneEvent(payloads, None);
      if event.Err? then Err(event.error) else Ok((payloads, event.value))
  }

  method ParseAudioPayloads(lines: seq<string>, payloadTypes: seq<nat>)
    returns (r: Result<(seq<AudioPayload>, Option<Capability>), SdpError>)
    ensures r == AudioPayloads(lines, payloadTypes)
  {
    var offered := set t | t in payloadTypes;
    var attributes := Attributes(map[], map[]);
    ghost var all := AttributesOf(lines);
    for i := 0 to |lines|
      invariant Collect(all[i..], offered, attributes) == Collect(all, offered, Attributes(map[], map[]))
    {
      assert all[i..][1..] == all[i + 1..];
      var next := Absorb(AttributeOf(lines[i]), offered, attributes);
      if next.Err? {
        return Err(next.error);
      }
      attributes := next.value;
    }
    var payloads := Payloads(payloadTypes, attributes);
    var found: Option<Capability> := None;
    for i := 0 to |payloads|
      invariant FindTelephoneEvent(payloads[i..], found) == FindTelephoneEvent(payloads, None)
    {
      assert payloads[i..][1..] == payloads[i + 1..];
      if IsTelephoneEvent(payloads[i]) {
        if found.Some? {
          return Err(MultipleTelephoneEvents);
        }
        var capability := TelephoneEvent(payloads[i]);
        if capability.Err? {
          return Err(capability.error);
        }
        found := Some(capability.value);
      }
    }
    r := Ok((payloads, found));
  }

  method ParseDtmfEventSet(value: string) returns (r: Result<set<nat>, SdpError>)
    ensures r == ParseEventSet(value)
  {
    var events := UniteRanges(EventRanges(SplitOn(value, ',')));
    r := if events.None? || events.value == {} then Err(InvalidFmtp(value)) else Ok(events.value);
  }

  /** The loop over the items, each read as a range. */
  method UniteRanges(ranges: seq<Option<(nat, nat)>>) returns (r: Option<set<nat>>)
    ensures r == EventSet(ranges)
  {
    var events: set<nat> := {};
    for i := 0 to |ranges|
      invariant EventSet(ranges[..i]) == Some(events)
    {
      assert ranges[..i + 1][..i] == ranges[..i];
      if ranges[i].None? {
        Unreadable(ranges, i);
        return None;
      }
      events := events + Range(ranges[i].value.0, ranges[i].value.1);
    }
    assert ranges[..|ranges|] == ranges;
    r := Some(events);
  }

  lemma {:induction false} Unreadable(ranges: seq<Option<(nat, nat)>>, i: nat)
    requires i < |ranges| && ranges[i].None?
    ensures EventSet(ranges).None?
  {
    if i < |ranges| - 1 {
      Unreadable(ranges[..|ranges| - 1], i);
    }
  }

  // ---- The session description ----

  function ParseParts(head: seq<string>, media: string, tail: seq<string>, v6: Codec): Result<ParsedAudio, SdpError>
    requires StartsWith(media, "m=")
  {
    var line := ParseMedia(media);
    if line.Err? then Err(line.error)
    else
      var payloads := AudioPayloads(tail, line.value.1);
      if payloads.Err? then Err(payloads.error)
      else
        var connection := OrElse(Find(tail, "c="), Find(head, "c="));
        if connection.None? then Err(MissingConnection)
        else
          var ip := ParseConnection(connection.value, v6);
          if ip.Err? then Err(ip.error)
          else
            var rtcp := RtcpAddress(Find(tail, "a=rtcp:"), Address(ip.value, line.value.0), v6);
            if rtcp.Err? then Err(rtcp.error)
            else
              var direction := OrElse(FirstDirection(tail), FirstDirection(head));
              Ok(ParsedAudio(Address(ip.value, line.value.0), rtcp.value, line.value.1,
                             payloads.value.0, payloads.value.1,
                             if direction.Some? then direction.value else SendRecv))
  }

  /** Without an attribute, RTCP uses the next port, if there is one. */
  function RtcpAddress(line: Option<string>, rtp: Address, v6: Codec): Result<Option<Address>, SdpError>
    requires line.Some? ==> StartsWith(line.value, "a=rtcp:")
  {
    if line.None? then Ok(if rtp.port < U16_MAX then Some(Address(rtp.ip, rtp.port + 1)) else None)
    else
      var r := ParseRtcp(line.value, rtp.ip, v6);
      if r.Err? then Err(r.error) else Ok(Some(r.value))
  }

  function ParseAudioLines(lines: seq<string>, m: nat, v6: Codec): Result<ParsedAudio, SdpError>
    requires m < |lines| && StartsWith(lines[m], "m=")
  {
    var bad := FirstUnsupported(lines);
    if bad.Some? then Err(UnsupportedAttribute(bad.value)) else ParseParts(lines[..m], lines[m], lines[m + 1..], v6)
  }

  function ParseAudioSdp(body: Body, v6: Codec): Result<ParsedAudio, SdpError> {
    var lines := SdpLines(body);
    if lines.Err? then Err(lines.error)
    else
      var m := MediaIndex(lines.value);
      if m.Err? then Err(m.error) else ParseAudioLines(lines.value, m.value, v6)
  }

  // ---- What the attributes mean ----

  /** Once an offered type has a mapping it keeps it, and no later line declares another. */
  lemma {:induction false} CollectKeeps(attributes: seq<Attribute>, offered: set<nat>, known: Attributes, t: nat)
    requires Collect(attributes, offered, known).Ok? && t in known.rtpmaps && t in offered
    ensures var r := Collect(attributes, offered, known).value;
            t in r.rtpmaps && r.rtpmaps[t] == known.rtpmaps[t]
    ensures forall i :: 0 <= i < |attributes| ==> !(attributes[i].Mapping? && attributes[i].payloadType == t)
    decreases |attributes|
  {
    if attributes != [] {
      CollectKeeps(attributes[1..], offered, Absorb(attributes[0], offered, known).value, t);
      assert attributes == [attributes[0]] + attributes[1..];
    }
  }

  /** In an accepted description an offered type has a mapping exactly if some line declares it, and then that one. */
  lemma {:induction false} MappingsExact(attributes: seq<Attribute>, offered: set<nat>, known: Attributes, t: nat)
    requires Collect(attributes, offered, known).Ok? && t in offered && t !in known.rtpmaps
    ensures var r := Collect(attributes, offered, known).value;
            && (t in r.rtpmaps <==>
               exists i :: 0 <= i < |attributes| && attributes[i].Mapping? && attributes[i].payloadType == t)
            && forall i :: 0 <= i < |attributes| && attributes[i].Mapping? && attributes[i].payloadType == t ==>
                 r.rtpmaps[t] == attributes[i].rtpmap
    decreases |attributes|
  {
    if attributes != [] {
      var next := Absorb(attributes[0], offered, known).value;
      assert attributes == [attributes[0]] + attributes[1..];
      if t in next.rtpmaps {
        CollectKeeps(attributes[1..], offered, next, t);
      } else {
        MappingsExact(attributes[1..], offered, next, t);
      }
    }
  }

  predicate Covers(range: Option<(nat, nat)>, e: nat) { range.Some? && range.value.0 <= e <= range.value.1 }

  /** An accepted event list means exactly the events some item covers. */
  lemma {:induction false} EventsExact(ranges: seq<Option<(nat, nat)>>, e: nat)
    requires EventSet(ranges).Some?
    ensures e in EventSet(ranges).value <==> exists i :: 0 <= i < |ranges| && Covers(ranges[i], e)
  {
    if ranges != [] {
      var front, last := ranges[..|ranges| - 1], ranges[|ranges| - 1];
      EventsExact(front, e);
      assert e in EventSet(ranges).value <==> e in EventSet(front).value || Covers(last, e);
      if i :| 0 <= i < |front| && Covers(front[i], e) {
        assert Covers(ranges[i], e);
      }
    }
  }
}
