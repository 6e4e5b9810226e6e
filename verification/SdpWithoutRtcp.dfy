/** Rewriting for a relay without an RTCP address: only the first RTCP attribute goes. */
module SdpWithoutRtcp {
  import opened Prelude
  import opened Text
  import opened Sdp
  import opened SdpRewrite
  import opened SdpRoundTrip
  import opened SdpTheorems

  const RTCP := "a=rtcp:"

  /** The lines with the prefix. */
  function Matching(lines: seq<string>, prefix: string): seq<string> {
    if lines == [] then []
    else (if StartsWith(lines[0], prefix) then [lines[0]] else []) + Matching(lines[1..], prefix)
  }

  lemma {:induction false} FindsMatching(lines: seq<string>, prefix: string)
    ensures Find(lines, prefix) == if Matching(lines, prefix) == [] then None else Some(Matching(lines, prefix)[0])
    ensures Matching(RemoveFirst(lines, prefix), prefix)
            == if Matching(lines, prefix) == [] then [] else Matching(lines, prefix)[1..]
  {
    if lines != [] && !StartsWith(lines[0], prefix) {
      FindsMatching(lines[1..], prefix);
      assert RemoveFirst(lines, prefix)[1..] == RemoveFirst(lines[1..], prefix);
    }
  }

  lemma {:induction false} ReplacingKeepsMatching(lines: seq<string>, prefix: string, line: string, other: string)
    requires prefix != [] && other != [] && prefix[0] != other[0] && StartsWith(line, prefix)
    ensures Matching(ReplaceFirst(lines, prefix, line), other) == Matching(lines, other)
  {
    if lines != [] {
      if StartsWith(lines[0], prefix) {
        assert line[0] == prefix[0] == lines[0][0];
        assert ([line] + lines[1..])[1..] == lines[1..];
      } else {
        ReplacingKeepsMatching(lines[1..], prefix, line, other);
        assert ReplaceFirst(lines, prefix, line)[1..] == ReplaceFirst(lines[1..], prefix, line);
      }
    }
  }

  lemma {:induction false} RemovingKeeps(lines: seq<string>, other: string)
    requires AllClean(lines) && other in {"o=", "c="}
    ensures AllClean(RemoveFirst(lines, RTCP)) && Others(RemoveFirst(lines, RTCP)) == Others(lines)
    ensures Find(RemoveFirst(lines, RTCP), other) == Find(lines, other)
  {
    if lines != [] {
      if StartsWith(lines[0], RTCP) {
        assert lines[0][0] == 'a';
      } else {
        RemovingKeeps(lines[1..], other);
        assert RemoveFirst(lines, RTCP)[1..] == RemoveFirst(lines[1..], RTCP);
      }
    }
  }

  /** What all edits lead to: settled origin and connection, and the RTCP attributes but the first. */
  ghost predicate Bare(p: Parts, q: Parts, relay: Relay, v6: Codec) {
    && Clean(q) && SameOthers(p, q)
    && OriginSettled(q, relay.rtp.ip, v6) && Effective(q) == Some(ConnectionLine(relay.rtp.ip, v6))
    && Matching(q.tail, RTCP) == (if Matching(p.tail, RTCP) == [] then [] else Matching(p.tail, RTCP)[1..])
  }

  lemma OriginKeepsMatching(p: Parts, ip: Ip, v6: Codec)
    ensures Matching(p.WithOrigin(ip, v6).tail, RTCP) == Matching(p.tail, RTCP)
  {
    if Find(p.head, "o=").None? && Find(p.tail, "o=").Some? {
      ReplacingKeepsMatching(p.tail, "o=", OriginLine(Find(p.tail, "o=").value, ip, v6), RTCP);
    }
  }

  lemma ConnectionKeepsMatching(p: Parts, ip: Ip, v6: Codec)
    ensures Matching(p.WithConnection(ip, v6).tail, RTCP) == Matching(p.tail, RTCP)
  {
    if Find(p.tail, "c=").Some? {
      ReplacingKeepsMatching(p.tail, "c=", ConnectionLine(ip, v6), RTCP);
    }
  }

  lemma RewrittenBare(p: Parts, relay: Relay, v6: Codec)
    requires v6.Inverse() && Clean(p) && p.Connected() && relay.rtcp.None?
    requires StartsWith(p.media, "m=") && |Words(p.media[2..])| >= 3
    ensures var q := p.Rewritten(relay, v6);
            Bare(p, q, relay, v6) && q.media == MediaLine(relay.rtp.port, Words(p.media[2..])[3..])
    ensures p.WithMedia(relay.rtp.port).WithOrigin(relay.rtp.ip, v6).Connected()
  {
    var p1 := p.WithMedia(relay.rtp.port);
    var p2 := p1.WithOrigin(relay.rtp.ip, v6);
    var p3 := p2.WithConnection(relay.rtp.ip, v6);
    OriginStep(p1, relay.rtp.ip, v6);
    OriginKeepsMatching(p1, relay.rtp.ip, v6);
    assert p1.Connected() && Found(p2, "c=") == Found(p1, "c=");
    ConnectionStep(p2, relay.rtp.ip, v6);
    ConnectionKeepsMatching(p2, relay.rtp.ip, v6);
    RemovingKeeps(p3.tail, "c=");
    RemovingKeeps(p3.tail, "o=");
    FindsMatching(p3.tail, RTCP);
  }

  lemma {:induction false} MatchingMatches(lines: seq<string>, prefix: string)
    ensures forall i :: 0 <= i < |Matching(lines, prefix)| ==> StartsWith(Matching(lines, prefix)[i], prefix)
  {
    if lines != [] {
      MatchingMatches(lines[1..], prefix);
    }
  }

  /** The RTCP address of the second attribute, which takes the place of the first, or the default one. */
  function Remaining(p: Parts, rtp: Address, v6: Codec): Result<Option<Address>, SdpError> {
    var attributes := Matching(p.tail, RTCP);
    MatchingMatches(p.tail, RTCP);
    if |attributes| <= 1 then Ok(if rtp.port < 65535 then Some(Address(rtp.ip, rtp.port + 1)) else None)
    else if ParseRtcp(attributes[1], rtp.ip, v6).Err? then Err(ParseRtcp(attributes[1], rtp.ip, v6).error)
    else Ok(Some(ParseRtcp(attributes[1], rtp.ip, v6).value))
  }

  lemma RemainingRead(p: Parts, q: Parts, relay: Relay, v6: Codec)
    requires Bare(p, q, relay, v6)
    ensures RtcpAddress(Find(q.tail, RTCP), relay.rtp, v6) == Remaining(p, relay.rtp, v6)
  {
    FindsMatching(q.tail, RTCP);
    MatchingMatches(p.tail, RTCP);
  }

  lemma ReparseBare(p: Parts, q: Parts, relay: Relay, v6: Codec)
    requires v6.Inverse() && Bare(p, q, relay, v6) && relay.rtp.port != 0
    requires StartsWith(p.media, "m=") && ParseParts(p.head, p.media, p.tail, v6).Ok?
    requires q.media == MediaLine(relay.rtp.port, Words(p.media[2..])[3..])
    ensures StartsWith(q.media, "m=")
    ensures var rtcp := Remaining(p, relay.rtp, v6);
            ParseParts(q.head, q.media, q.tail, v6)
            == if rtcp.Err? then Err(rtcp.error)
               else Ok(ParseParts(p.head, p.media, p.tail, v6).value.(rtp := relay.rtp, rtcp := rtcp.value))
  {
    var types := ParseMedia(p.media).value.1;
    MediaKept(p, q, relay.rtp.port);
    OthersKept(p, q, types);
    ConnectionLineReads(relay.rtp.ip, v6);
    PartsTaken(p, v6);
    RemainingRead(p, q, relay, v6);
    if Remaining(p, relay.rtp, v6).Ok? {
      PartsAssembled(q, relay.rtp, Remaining(p, relay.rtp, v6).value, types, v6);
    }
  }

  lemma BareAccepted(p: Parts, q: Parts, relay: Relay, v6: Codec)
    requires v6.Inverse() && Bare(p, q, relay, v6)
    requires StartsWith(p.media, "m=") && ParseMedia(p.media).Ok?
    requires MediaIndex(p.All()) == Ok(|p.head|) && FirstUnsupported(p.All()).None?
    requires q.media == MediaLine(relay.rtp.port, Words(p.media[2..])[3..])
    ensures StartsWith(q.media, "m=")
    ensures ParseAudioSdp(Body("application/sdp", TextOf(q.All())), v6) == ParseParts(q.head, q.media, q.tail, v6)
  {
    MediaTypes(p.media);
    MediaLineReads(relay.rtp.port, Words(p.media[2..])[3..]);
    AllReparses(p, q, v6);
    WrittenBody(q);
  }

  lemma BareLines(p: Parts, relay: Relay, v6: Codec)
    requires v6.Inverse() && relay.rtcp.None? && Clean(p) && p.Connected()
    requires StartsWith(p.media, "m=") && |Words(p.media[2..])| >= 4
    ensures |p.head| < |p.All()| && p.All()[|p.head|] == p.media && PartsAt(p.All(), |p.head|) == p
    ensures RewriteLines(p.All(), |p.head|, relay, v6) == Ok(p.Rewritten(relay, v6).All())
  {
    assert PartsAt(p.All(), |p.head|) == p;
    RewrittenBare(p, relay, v6);
  }

  lemma BareBody(body: Body, p: Parts, relay: Relay, v6: Codec)
    requires v6.Inverse() && relay.rtcp.None? && Accepted(body, p, v6) && Clean(p)
    ensures p.Connected() && |Words(p.media[2..])| >= 4
    ensures RewriteAudioSdp(body, relay, v6)
            == Ok(Prepared(Body("application/sdp", TextOf(p.Rewritten(relay, v6).All())),
                           ParseParts(p.head, p.media, p.tail, v6).value))
  {
    ParsedIsConnected(p, v6);
    BareLines(p, relay, v6);
    RewriteUnfolded(body, p.All(), |p.head|, relay, v6);
  }

  lemma LinesParse(p: Parts, v6: Codec)
    requires StartsWith(p.media, "m=") && FirstUnsupported(p.All()).None?
    ensures |p.head| < |p.All()| && p.All()[|p.head|] == p.media && PartsAt(p.All(), |p.head|) == p
    ensures ParseAudioLines(p.All(), |p.head|, v6) == ParseParts(p.head, p.media, p.tail, v6)
  {
    assert PartsAt(p.All(), |p.head|) == p;
  }

  lemma AcceptedParses(body: Body, p: Parts, v6: Codec)
    requires Accepted(body, p, v6)
    ensures ParseAudioSdp(body, v6) == ParseParts(p.head, p.media, p.tail, v6) && Clean(p)
  {
    LinesParse(p, v6);
    AcceptedUnfolded(body, v6);
    LinesClean(body.text);
    CleanParts(p.All(), |p.head|);
  }

  /**
   * Without an RTCP address of the relay, an accepted body is rewritten too, and the result parses to the relay's RTP
   * address and the default RTCP address behind it exactly if the body had at most one RTCP attribute, or its second
   * one says just that: the second attribute is what is left in effect.
   */
  lemma RoundTripWithoutRtcp(body: Body, p: Parts, relay: Relay, v6: Codec)
    requires v6.Inverse() && relay.rtcp.None? && Accepted(body, p, v6)
    ensures ParseAudioSdp(body, v6).Ok? && RewriteAudioSdp(body, relay, v6).Ok?
    ensures var prepared, rtcp := RewriteAudioSdp(body, relay, v6).value, Remaining(p, relay.rtp, v6);
            && prepared.parsed == ParseAudioSdp(body, v6).value
            && (relay.rtp.port == 0 ==> ParseAudioSdp(prepared.body, v6).Err?)
            && (relay.rtp.port != 0 ==>
                  ParseAudioSdp(prepared.body, v6)
                  == if rtcp.Err? then Err(rtcp.error)
                     else Ok(prepared.parsed.(rtp := relay.rtp, rtcp := rtcp.value)))
  {
    AcceptedParses(body, p, v6);
    BareBody(body, p, relay, v6);
    RewrittenBare(p, relay, v6);
    var q := p.Rewritten(relay, v6);
    BareAccepted(p, q, relay, v6);
    MediaKept(p, q, relay.rtp.port);
    if relay.rtp.port != 0 {
      ReparseBare(p, q, relay, v6);
    }
  }

  // ---- Rewriting again ----

  /** Rewriting what is settled and has no RTCP attribute changes nothing. */
  lemma BareIsFixed(q: Parts, relay: Relay, payloads: seq<string>, v6: Codec)
    requires relay.rtcp.None? && AllWords(payloads) && q.media == MediaLine(relay.rtp.port, payloads)
    requires OriginSettled(q, relay.rtp.ip, v6) && Effective(q) == Some(ConnectionLine(relay.rtp.ip, v6))
    requires Matching(q.tail, RTCP) == []
    ensures StartsWith(q.media, "m=") && |Words(q.media[2..])| >= 3
    ensures q.Rewritten(relay, v6) == q
  {
    MediaLineReads(relay.rtp.port, payloads);
    assert MediaWords(relay.rtp.port, payloads)[3..] == payloads;
    assert q.WithMedia(relay.rtp.port) == q;
    if Find(q.head, "o=").Some? {
      ReplaceSame(q.head, "o=");
    } else if Find(q.tail, "o=").Some? {
      ReplaceSame(q.tail, "o=");
    }
    assert q.WithOrigin(relay.rtp.ip, v6) == q;
    if Find(q.tail, "c=").Some? {
      ReplaceSame(q.tail, "c=");
    } else {
      ReplaceSame(q.head, "c=");
    }
    FindsMatching(q.tail, RTCP);
    NothingToRemove(q.tail, RTCP);
  }

  /** Written parts that have lost an RTCP attribute are another text. */
  lemma ShorterDiffers(p: Parts, q: Parts, r: Parts, relay: Relay, v6: Codec)
    requires v6.Inverse() && Bare(p, q, relay, v6) && Bare(q, r, relay, v6) && Matching(q.tail, RTCP) != []
    requires StartsWith(p.media, "m=") && StartsWith(q.media, "m=") && StartsWith(r.media, "m=")
    requires CleanLine(q.media) && CleanLine(r.media)
    requires MediaIndex(p.All()) == Ok(|p.head|) && FirstUnsupported(p.All()).None?
    ensures TextOf(r.All()) != TextOf(q.All())
  {
    AllReparses(p, q, v6);
    UnsupportedKept(p, q);
    AllReparses(q, r, v6);
    CleanAll(q);
    CleanAll(r);
    LinesRoundTrip(q.All());
    LinesRoundTrip(r.All());
  }

  lemma UnsupportedKept(p: Parts, q: Parts)
    requires SameOthers(p, q) && StartsWith(p.media, "m=") && StartsWith(q.media, "m=")
    ensures FirstUnsupported(q.All()) == FirstUnsupported(p.All())
  {
    UnsupportedByParts(p);
    UnsupportedByParts(q);
    UnsupportedOthers(p.head);
    UnsupportedOthers(p.tail);
    UnsupportedOthers(q.head);
    UnsupportedOthers(q.tail);
  }

  /** Where the rewritten text is accepted, its parts are those that were written. */
  lemma BareIsAccepted(body: Body, p: Parts, relay: Relay, v6: Codec) returns (q: Parts)
    requires v6.Inverse() && relay.rtcp.None? && relay.rtp.port != 0 && Accepted(body, p, v6) && Clean(p)
    requires Remaining(p, relay.rtp, v6).Ok?
    ensures |Words(p.media[2..])| >= 4 && q == p.Rewritten(relay, v6) && Bare(p, q, relay, v6)
    ensures q.media == MediaLine(relay.rtp.port, Words(p.media[2..])[3..]) && AllWords(Words(p.media[2..])[3..])
    ensures CleanLine(q.media) && Accepted(Body("application/sdp", TextOf(q.All())), q, v6)
  {
    ParsedIsConnected(p, v6);
    RewrittenBare(p, relay, v6);
    q := p.Rewritten(relay, v6);
    MediaTypes(p.media);
    MediaLineReads(relay.rtp.port, Words(p.media[2..])[3..]);
    AllReparses(p, q, v6);
    UnsupportedKept(p, q);
    WrittenBody(q);
    ReparseBare(p, q, relay, v6);
  }

  /** Rewriting again for such a relay gives the same text exactly if the body had at most one RTCP attribute. */
  lemma RewritingAgainWithoutRtcp(body: Body, p: Parts, relay: Relay, v6: Codec)
    requires v6.Inverse() && relay.rtcp.None? && relay.rtp.port != 0 && Accepted(body, p, v6)
    requires Remaining(p, relay.rtp, v6).Ok?
    ensures RewriteAudioSdp(body, relay, v6).Ok?
    ensures var first := RewriteAudioSdp(body, relay, v6).value.body;
            && RewriteAudioSdp(first, relay, v6).Ok?
            && (RewriteAudioSdp(first, relay, v6).value.body == first <==> |Matching(p.tail, RTCP)| <= 1)
  {
    AcceptedParses(body, p, v6);
    BareBody(body, p, relay, v6);
    var q := BareIsAccepted(body, p, relay, v6);
    var text := Body("application/sdp", TextOf(q.All()));
    BareBody(text, q, relay, v6);
    if |Matching(p.tail, RTCP)| <= 1 {
      BareIsFixed(q, relay, Words(p.media[2..])[3..], v6);
    } else {
      RewrittenBare(q, relay, v6);
      var r := q.Rewritten(relay, v6);
      MediaTypes(q.media);
      MediaLineReads(relay.rtp.port, Words(q.media[2..])[3..]);
      ShorterDiffers(p, q, r, relay, v6);
    }
  }
}
