/** The round trip of whole session descriptions. */
module SdpTheorems {
  import opened Prelude
  import opened Text
  import opened Sdp
  import opened SdpRewrite
  import opened SdpRoundTrip

  /** A written media line is accepted exactly for a non-zero port. */
  lemma MediaReparses(port: Port, payloads: seq<string>, types: seq<nat>)
    requires AllWords(payloads) && payloads != [] && ParsePayloadTypes(payloads) == Ok(types)
    ensures StartsWith(MediaLine(port, payloads), "m=")
    ensures ParseMedia(MediaLine(port, payloads))
            == if port == 0 then Err(InvalidMediaLine(MediaLine(port, payloads))) else Ok((port, types))
  {
    MediaLineReads(port, payloads);
    DigitsAreWord(Decimal(port));
    NumberRoundTrip(port, U16_MAX);
    assert MediaWords(port, payloads)[3..] == payloads;
  }

  lemma MediaTypes(line: string)
    requires StartsWith(line, "m=") && ParseMedia(line).Ok?
    ensures var payloads := Words(line[2..])[3..];
            payloads != [] && AllWords(payloads) && ParsePayloadTypes(payloads) == Ok(ParseMedia(line).value.1)
  {
    WordsAreWords(line[2..]);
  }

  lemma MediaKept(p: Parts, q: Parts, port: Port)
    requires StartsWith(p.media, "m=") && ParseMedia(p.media).Ok?
             && q.media == MediaLine(port, Words(p.media[2..])[3..])
    ensures StartsWith(q.media, "m=")
    ensures ParseMedia(q.media)
            == if port == 0 then Err(InvalidMediaLine(q.media)) else Ok((port, ParseMedia(p.media).value.1))
  {
    MediaTypes(p.media);
    MediaReparses(port, Words(p.media[2..])[3..], ParseMedia(p.media).value.1);
  }

  lemma OthersKept(p: Parts, q: Parts, types: seq<nat>)
    requires SameOthers(p, q)
    ensures AudioPayloads(q.tail, types) == AudioPayloads(p.tail, types)
    ensures FirstDirection(q.head) == FirstDirection(p.head) && FirstDirection(q.tail) == FirstDirection(p.tail)
  {
    PayloadsOthers(p.tail, types);
    PayloadsOthers(q.tail, types);
    DirectionOthers(p.head);
    DirectionOthers(q.head);
    DirectionOthers(p.tail);
    DirectionOthers(q.tail);
  }

  lemma AddressesRead(q: Parts, relay: Relay, v6: Codec)
    requires v6.Inverse() && relay.rtcp.Some? && Settled(q, relay, v6)
    ensures Effective(q).Some? && StartsWith(Effective(q).value, "c=")
            && ParseConnection(Effective(q).value, v6) == Ok(relay.rtp.ip)
    ensures RtcpAddress(Find(q.tail, "a=rtcp:"), relay.rtp, v6) == Ok(relay.rtcp)
  {
    ConnectionLineReads(relay.rtp.ip, v6);
    RtcpLineReads(relay.rtcp.value, relay.rtp.ip, v6);
  }

  function DirectionOf(p: Parts): MediaDirection {
    var direction := OrElse(FirstDirection(p.tail), FirstDirection(p.head));
    if direction.Some? then direction.value else SendRecv
  }

  /** What an accepted description says besides its addresses. */
  lemma PartsTaken(p: Parts, v6: Codec)
    requires StartsWith(p.media, "m=") && ParseParts(p.head, p.media, p.tail, v6).Ok?
    ensures ParseMedia(p.media).Ok? && AudioPayloads(p.tail, ParseMedia(p.media).value.1).Ok?
    ensures var x, types := ParseParts(p.head, p.media, p.tail, v6).value, ParseMedia(p.media).value.1;
            && x.payloadTypes == types && (x.payloads, x.telephoneEvent) == AudioPayloads(p.tail, types).value
            && x.direction == DirectionOf(p)
  {
  }

  lemma PartsAssembled(q: Parts, rtp: Address, rtcp: Option<Address>, types: seq<nat>, v6: Codec)
    requires StartsWith(q.media, "m=") && ParseMedia(q.media) == Ok((rtp.port, types))
             && AudioPayloads(q.tail, types).Ok?
    requires Effective(q).Some? && StartsWith(Effective(q).value, "c=")
             && ParseConnection(Effective(q).value, v6) == Ok(rtp.ip)
    requires RtcpAddress(Find(q.tail, "a=rtcp:"), rtp, v6) == Ok(rtcp)
    ensures var payloads := AudioPayloads(q.tail, types).value;
            ParseParts(q.head, q.media, q.tail, v6)
              == Ok(ParsedAudio(rtp, rtcp, types, payloads.0, payloads.1, DirectionOf(q)))
  {
  }

  /** Same other lines, settled addresses: the same meaning at the relay's addresses. */
  lemma ReparseParts(p: Parts, q: Parts, relay: Relay, v6: Codec)
    requires v6.Inverse() && relay.rtcp.Some? && Settled(q, relay, v6) && SameOthers(p, q)
    requires StartsWith(p.media, "m=") && ParseParts(p.head, p.media, p.tail, v6).Ok?
    requires q.media == MediaLine(relay.rtp.port, Words(p.media[2..])[3..])
    ensures StartsWith(q.media, "m=")
    ensures ParseParts(q.head, q.media, q.tail, v6)
            == if relay.rtp.port == 0 then Err(InvalidMediaLine(q.media))
               else Ok(ParseParts(p.head, p.media, p.tail, v6).value.(rtp := relay.rtp, rtcp := relay.rtcp))
  {
    var types := ParseMedia(p.media).value.1;
    MediaKept(p, q, relay.rtp.port);
    if relay.rtp.port != 0 {
      OthersKept(p, q, types);
      AddressesRead(q, relay, v6);
      PartsTaken(p, v6);
      PartsAssembled(q, relay.rtp, relay.rtcp, types, v6);
    }
  }

  lemma {:induction false} UnsupportedConcat(a: seq<string>, b: seq<string>)
    ensures FirstUnsupported(a + b) == OrElse(FirstUnsupported(a), FirstUnsupported(b))
  {
    if a == [] {
      assert a + b == b;
    } else {
      UnsupportedConcat(a[1..], b);
      assert (a + b)[1..] == a[1..] + b;
    }
  }

  lemma UnsupportedByParts(p: Parts)
    requires StartsWith(p.media, "m=")
    ensures FirstUnsupported(p.All()) == OrElse(FirstUnsupported(p.head), FirstUnsupported(p.tail))
  {
    assert p.media[0] == 'm';
    UnsupportedConcat([p.media], p.tail);
    UnsupportedConcat(p.head, [p.media] + p.tail);
    assert FirstUnsupported([p.media]).None?;
    assert p.All() == p.head + ([p.media] + p.tail);
  }

  /** There is one media line, at m, exactly if the parts around m have none. */
  lemma OneMediaLine(lines: seq<string>, m: nat)
    requires m < |lines|
    ensures MediaIndex(lines) == Ok(m) <==>
            StartsWith(lines[m], "m=") && Find(lines[..m], "m=").None? && Find(lines[m + 1..], "m=").None?
  {
    PartsRoundTrip(lines, m);
    IndexFinds(lines, "m=", 0, m, "");
    IndexFinds(lines, "m=", m + 1, |lines|, "");
    FirstIndexFrom(lines, "m=", 0, m, |lines|);
  }

  lemma AllReparses(p: Parts, q: Parts, v6: Codec)
    requires SameOthers(p, q) && StartsWith(q.media, "m=") && StartsWith(p.media, "m=")
    requires MediaIndex(p.All()) == Ok(|p.head|) && FirstUnsupported(p.All()).None?
    ensures MediaIndex(q.All()) == Ok(|q.head|) && PartsAt(q.All(), |q.head|) == q
    ensures ParseAudioLines(q.All(), |q.head|, v6) == ParseParts(q.head, q.media, q.tail, v6)
  {
    assert PartsAt(p.All(), |p.head|) == p && PartsAt(q.All(), |q.head|) == q;
    OneMediaLine(p.All(), |p.head|);
    OneMediaLine(q.All(), |q.head|);
    MediaOthers(p.head);
    MediaOthers(p.tail);
    MediaOthers(q.head);
    MediaOthers(q.tail);
    UnsupportedByParts(p);
    UnsupportedByParts(q);
    UnsupportedOthers(p.head);
    UnsupportedOthers(p.tail);
    UnsupportedOthers(q.head);
    UnsupportedOthers(q.tail);
  }

  lemma EqItself(s: string)
    ensures EqIgnoreCase(s, s)
  {
  }

  lemma KindRead(kind: string)
    requires kind == "application/sdp"
    ensures SplitOn(kind, ';')[0] == kind && Trim(kind) == kind
  {
    SplitWhole(kind, ';');
    assert kind[0] == 'a' && kind[|kind| - 1] == 'p';
    assert TrimStart(kind) == kind && TrimEnd(kind) == kind;
  }

  lemma WrittenKind(text: string)
    ensures SdpLines(Body("application/sdp", text)) == Ok(Lines(text))
  {
    KindRead("application/sdp");
    EqItself("application/sdp");
  }

  lemma CleanAll(q: Parts)
    requires Clean(q) && CleanLine(q.media)
    ensures AllClean(q.All())
  {
  }

  lemma WrittenBody(q: Parts)
    requires Clean(q) && CleanLine(q.media)
    ensures SdpLines(Body("application/sdp", TextOf(q.All()))) == Ok(q.All())
  {
    WrittenKind(TextOf(q.All()));
    CleanAll(q);
    LinesRoundTrip(q.All());
  }

  /** The parts of an accepted body. */
  ghost predicate Accepted(body: Body, p: Parts, v6: Codec) {
    && SdpLines(body) == Ok(p.All()) && MediaIndex(p.All()) == Ok(|p.head|) && FirstUnsupported(p.All()).None?
    && StartsWith(p.media, "m=") && ParseParts(p.head, p.media, p.tail, v6).Ok?
  }

  lemma AcceptedUnfolded(body: Body, v6: Codec)
    ensures ParseAudioSdp(body, v6).Ok? <==>
            && SdpLines(body).Ok? && MediaIndex(SdpLines(body).value).Ok?
            && ParseAudioLines(SdpLines(body).value, MediaIndex(SdpLines(body).value).value, v6).Ok?
    ensures ParseAudioSdp(body, v6).Ok? ==>
              ParseAudioSdp(body, v6)
                == ParseAudioLines(SdpLines(body).value, MediaIndex(SdpLines(body).value).value, v6)
  {
  }

  lemma CleanParts(lines: seq<string>, m: nat)
    requires AllClean(lines) && m < |lines|
    ensures Clean(PartsAt(lines, m))
  {
  }

  lemma AcceptedParts(body: Body, v6: Codec) returns (p: Parts)
    requires ParseAudioSdp(body, v6).Ok?
    ensures Accepted(body, p, v6) && Clean(p) && ParseAudioSdp(body, v6) == ParseParts(p.head, p.media, p.tail, v6)
  {
    AcceptedUnfolded(body, v6);
    var lines := SdpLines(body).value;
    var m := MediaIndex(lines).value;
    p := PartsAt(lines, m);
    PartsRoundTrip(lines, m);
    LinesClean(body.text);
    CleanParts(lines, m);
  }

  lemma ParsedIsConnected(p: Parts, v6: Codec)
    requires StartsWith(p.media, "m=") && ParseParts(p.head, p.media, p.tail, v6).Ok?
    ensures p.Connected() && |Words(p.media[2..])| >= 4
  {
  }

  lemma RewriteUnfolded(body: Body, lines: seq<string>, m: nat, relay: Relay, v6: Codec)
    requires SdpLines(body) == Ok(lines) && MediaIndex(lines) == Ok(m) && ParseAudioLines(lines, m, v6).Ok?
    requires |Words(lines[m][2..])| >= 4
    ensures RewriteAudioSdp(body, relay, v6)
            == if RewriteLines(lines, m, relay, v6).Err? then Err(RewriteLines(lines, m, relay, v6).error)
               else Ok(Prepared(Body("application/sdp", TextOf(RewriteLines(lines, m, relay, v6).value)),
                                ParseAudioLines(lines, m, v6).value))
  {
  }

  lemma RewrittenLines(p: Parts, relay: Relay, v6: Codec)
    requires v6.Inverse() && relay.rtcp.Some? && Clean(p) && p.Connected()
    requires StartsWith(p.media, "m=") && |Words(p.media[2..])| >= 4
    ensures |p.head| < |p.All()| && p.All()[|p.head|] == p.media && PartsAt(p.All(), |p.head|) == p
    ensures RewriteLines(p.All(), |p.head|, relay, v6) == Ok(p.Rewritten(relay, v6).All())
  {
    assert PartsAt(p.All(), |p.head|) == p;
    RewrittenSettles(p, relay, v6);
  }

  /** The rewritten body, by parts. */
  lemma RewrittenBody(body: Body, p: Parts, relay: Relay, v6: Codec)
    requires v6.Inverse() && relay.rtcp.Some? && Accepted(body, p, v6) && Clean(p)
    ensures p.Connected() && |Words(p.media[2..])| >= 4
    ensures RewriteAudioSdp(body, relay, v6)
            == Ok(Prepared(Body("application/sdp", TextOf(p.Rewritten(relay, v6).All())),
                           ParseParts(p.head, p.media, p.tail, v6).value))
  {
    ParsedIsConnected(p, v6);
    RewrittenLines(p, relay, v6);
    RewriteUnfolded(body, p.All(), |p.head|, relay, v6);
  }

  lemma RewrittenAccepted(body: Body, p: Parts, relay: Relay, v6: Codec)
    requires v6.Inverse() && relay.rtcp.Some? && Accepted(body, p, v6) && Clean(p)
    ensures |Words(p.media[2..])| >= 4
    ensures var q := p.Rewritten(relay, v6);
            var text := Body("application/sdp", TextOf(q.All()));
            && StartsWith(q.media, "m=")
            && SdpLines(text) == Ok(q.All()) && MediaIndex(q.All()) == Ok(|q.head|) && PartsAt(q.All(), |q.head|) == q
            && ParseAudioLines(q.All(), |q.head|, v6) == ParseParts(q.head, q.media, q.tail, v6)
            && Clean(q) && Settled(q, relay, v6)
            && ParseParts(q.head, q.media, q.tail, v6)
               == if relay.rtp.port == 0 then Err(InvalidMediaLine(q.media))
                  else Ok(ParseParts(p.head, p.media, p.tail, v6).value.(rtp := relay.rtp, rtcp := relay.rtcp))
  {
    ParsedIsConnected(p, v6);
    RewrittenSettles(p, relay, v6);
    var q := p.Rewritten(relay, v6);
    ReparseParts(p, q, relay, v6);
    AllReparses(p, q, v6);
    MediaTypes(p.media);
    MediaLineReads(relay.rtp.port, Words(p.media[2..])[3..]);
    WrittenBody(q);
  }

  /**
   * Round trip: a body is rewritten exactly if it parses, and the rewritten text parses to the same payloads,
   * telephone events and direction, with the relay's RTP and RTCP addresses, exactly if the relay's RTP port is not 0.
   */
  lemma RoundTrip(body: Body, relay: Relay, v6: Codec)
    requires v6.Inverse() && relay.rtcp.Some?
    ensures RewriteAudioSdp(body, relay, v6).Ok? <==> ParseAudioSdp(body, v6).Ok?
    ensures RewriteAudioSdp(body, relay, v6).Ok? ==>
              var prepared := RewriteAudioSdp(body, relay, v6).value;
              && ParseAudioSdp(body, v6) == Ok(prepared.parsed)
              && (relay.rtp.port != 0 ==>
                    ParseAudioSdp(prepared.body, v6) == Ok(prepared.parsed.(rtp := relay.rtp, rtcp := relay.rtcp)))
              && (relay.rtp.port == 0 ==> ParseAudioSdp(prepared.body, v6).Err?)
  {
    if ParseAudioSdp(body, v6).Ok? {
      var p := AcceptedParts(body, v6);
      RewrittenBody(body, p, relay, v6);
      RewrittenAccepted(body, p, relay, v6);
    }
  }

  /** Rewriting again for the same relay gives the same text. */
  lemma RewritingIsIdempotent(body: Body, relay: Relay, v6: Codec)
    requires v6.Inverse() && relay.rtcp.Some? && relay.rtp.port != 0 && RewriteAudioSdp(body, relay, v6).Ok?
    ensures var prepared := RewriteAudioSdp(body, relay, v6).value;
            RewriteAudioSdp(prepared.body, relay, v6)
            == Ok(Prepared(prepared.body, prepared.parsed.(rtp := relay.rtp, rtcp := relay.rtcp)))
  {
    RoundTrip(body, relay, v6);
    var p := AcceptedParts(body, v6);
    RewrittenBody(body, p, relay, v6);
    RewrittenAccepted(body, p, relay, v6);
    RewrittenSettles(p, relay, v6);
    var q := p.Rewritten(relay, v6);
    MediaTypes(p.media);
    SettledIsFixed(q, relay, Words(p.media[2..])[3..], v6);
    var text := Body("application/sdp", TextOf(q.All()));
    RewrittenBody(text, q, relay, v6);
  }
}
