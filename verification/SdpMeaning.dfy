/** What an audio session description says, as relations between its lines and the values a parser must report. */
module SdpMeaning {
  import opened Prelude
  import opened Text
  import opened Sdp
  import opened SdpRewrite
  import opened SdpRoundTrip
  import opened SdpTheorems
  import opened SdpPayloads

  // ---- First lines ----

  predicate NoneWith(lines: seq<string>, prefix: string) {
    forall i :: 0 <= i < |lines| ==> !(prefix <= lines[i])
  }

  /** `line` is the first one with the prefix. */
  ghost predicate FirstWith(lines: seq<string>, prefix: string, line: string) {
    exists k :: 0 <= k < |lines| && FirstAt(lines, prefix, k) && lines[k] == line
  }

  predicate FirstAt(lines: seq<string>, prefix: string, k: nat)
    requires k < |lines|
  {
    prefix <= lines[k] && forall i :: 0 <= i < k ==> !(prefix <= lines[i])
  }

  lemma {:induction false} FindsFirst(lines: seq<string>, prefix: string, line: string)
    ensures Find(lines, prefix).None? <==> NoneWith(lines, prefix)
    ensures Find(lines, prefix) == Some(line) <==> FirstWith(lines, prefix, line)
  {
    if lines != [] && !(prefix <= lines[0]) {
      var rest := lines[1..];
      FindsFirst(rest, prefix, line);
      if k :| 0 <= k < |rest| && FirstAt(rest, prefix, k) && rest[k] == line {
        assert FirstAt(lines, prefix, k + 1) && lines[k + 1] == line;
      }
      if k :| 0 <= k < |lines| && FirstAt(lines, prefix, k) && lines[k] == line {
        assert k > 0 && lines[k] == rest[k - 1];
        assert forall i :: 0 <= i < k - 1 ==> rest[i] == lines[i + 1];
        assert FirstAt(rest, prefix, k - 1);
      }
      assert NoneWith(rest, prefix) ==> NoneWith(lines, prefix) by {
        assert forall i :: 1 <= i < |lines| ==> lines[i] == rest[i - 1];
      }
    } else if lines != [] {
      assert FirstAt(lines, prefix, 0);
    }
  }

  // ---- Addresses ----

  /** The last three words of a connection line or an RTCP attribute. */
  predicate IpWords(words: seq<string>, ip: Ip, v6: Codec) {
    && |words| == 3 && words[0] == "IN" && (words[1] == "IP4" || words[1] == "IP6")
    && ParseIp(words[2], v6) == Some(ip)
  }

  /** The media's own connection line is in effect, or else the session's. */
  ghost predicate ConnectionLineOf(p: Parts, line: string) {
    FirstWith(p.tail, "c=", line) || (NoneWith(p.tail, "c=") && FirstWith(p.head, "c=", line))
  }

  ghost predicate ConnectionSays(p: Parts, ip: Ip, v6: Codec) {
    exists line :: ConnectionLineOf(p, line) && IpWords(Words(line[2..]), ip, v6)
  }

  predicate RtcpWords(words: seq<string>, rtp: Address, rtcp: Address, v6: Codec) {
    && words != [] && ParseUint(words[0], 65535) == Some(rtcp.port)
    && ((|words| == 1 && rtcp.ip == rtp.ip) || (|words| == 4 && IpWords(words[1..], rtcp.ip, v6)))
  }

  /** Without an attribute, RTCP uses the port behind the RTP port, if there is one. */
  ghost predicate RtcpSays(p: Parts, rtp: Address, rtcp: Option<Address>, v6: Codec) {
    && (NoneWith(p.tail, "a=rtcp:") ==>
          if rtp.port < 65535 then rtcp == Some(Address(rtp.ip, rtp.port + 1)) else rtcp == None)
    && forall line :: FirstWith(p.tail, "a=rtcp:", line) ==>
         rtcp.Some? && RtcpWords(Words(line[7..]), rtp, rtcp.value, v6)
  }

  lemma ConnectionExactly(p: Parts, ip: Ip, v6: Codec)
    ensures var line := OrElse(Find(p.tail, "c="), Find(p.head, "c="));
            ConnectionSays(p, ip, v6) <==> line.Some? && ParseConnection(line.value, v6) == Ok(ip)
  {
    var line := OrElse(Find(p.tail, "c="), Find(p.head, "c="));
    forall text ensures ConnectionLineOf(p, text) <==> line == Some(text) {
      FindsFirst(p.tail, "c=", text);
      FindsFirst(p.head, "c=", text);
    }
    if line.Some? {
      assert ConnectionLineOf(p, line.value);
    }
  }

  lemma RtcpExactly(p: Parts, rtp: Address, rtcp: Option<Address>, v6: Codec)
    ensures RtcpSays(p, rtp, rtcp, v6) <==> RtcpAddress(Find(p.tail, "a=rtcp:"), rtp, v6) == Ok(rtcp)
  {
    var line := Find(p.tail, "a=rtcp:");
    forall text ensures FirstWith(p.tail, "a=rtcp:", text) <==> line == Some(text) {
      FindsFirst(p.tail, "a=rtcp:", text);
    }
    FindsFirst(p.tail, "a=rtcp:", "");
    if line.Some? {
      assert FirstWith(p.tail, "a=rtcp:", line.value);
      RtcpWordsExactly(line.value, rtp, rtcp, v6);
    }
  }

  lemma RtcpWordsExactly(line: string, rtp: Address, rtcp: Option<Address>, v6: Codec)
    requires StartsWith(line, "a=rtcp:")
    ensures ParseRtcp(line, rtp.ip, v6).Ok? && rtcp == Some(ParseRtcp(line, rtp.ip, v6).value)
       <==> rtcp.Some? && RtcpWords(Words(line[7..]), rtp, rtcp.value, v6)
  {
  }

  // ---- The media line ----

  /** Audio over RTP/AVP on a non-zero port, with at least one payload type of seven bits. */
  predicate MediaSays(line: string, port: nat, types: seq<nat>)
    requires "m=" <= line
  {
    var words := Words(line[2..]);
    && |words| == 3 + |types| && |types| >= 1
    && words[0] == "audio" && words[2] == "RTP/AVP"
    && ParseUint(words[1], 65535) == Some(port) && port > 0
    && forall i :: 0 <= i < |types| ==> ParseUint(words[3 + i], 127) == Some(types[i])
  }

  lemma {:induction false} TypesExactly(words: seq<string>, types: seq<nat>)
    ensures ParsePayloadTypes(words) == Ok(types) <==>
            |words| == |types| && forall i :: 0 <= i < |types| ==> ParseUint(words[i], 127) == Some(types[i])
  {
    if words != [] && types != [] {
      TypesExactly(words[1..], types[1..]);
      assert types == [types[0]] + types[1..] && words == [words[0]] + words[1..];
    }
  }

  lemma NumberHasNoSlash(s: string, max: nat)
    requires ParseUint(s, max).Some?
    ensures '/' !in s
  {
  }

  lemma MediaExactly(line: string, port: nat, types: seq<nat>)
    requires StartsWith(line, "m=")
    ensures MediaSays(line, port, types) <==> ParseMedia(line) == Ok((port, types))
  {
    var words := Words(line[2..]);
    if |words| >= 4 {
      TypesExactly(words[3..], types);
      if ParseUint(words[1], U16_MAX).Some? {
        NumberHasNoSlash(words[1], U16_MAX);
      }
    }
  }

  // ---- The direction ----

  /** The line is the attribute of the direction. */
  predicate Declares(line: string, direction: MediaDirection) {
    match direction
    case SendRecv => line == "a=sendrecv"
    case SendOnly => line == "a=sendonly"
    case RecvOnly => line == "a=recvonly"
    case Inactive => line == "a=inactive"
  }

  ghost predicate NoneDeclared(lines: seq<string>) {
    forall i, d :: 0 <= i < |lines| ==> !Declares(lines[i], d)
  }

  ghost predicate FirstDeclared(lines: seq<string>, direction: MediaDirection) {
    exists k :: 0 <= k < |lines| && Declares(lines[k], direction) && NoneDeclared(lines[..k])
  }

  /** The media's direction is in effect, or else the session's, or else both ways. */
  ghost predicate DirectionSays(p: Parts, direction: MediaDirection) {
    || FirstDeclared(p.tail, direction)
    || (NoneDeclared(p.tail) && FirstDeclared(p.head, direction))
    || (NoneDeclared(p.tail) && NoneDeclared(p.head) && direction == SendRecv)
  }

  lemma DeclaredExactly(line: string, direction: MediaDirection)
    ensures ParseDirection(line) == Some(direction) <==> Declares(line, direction)
  {
  }

  lemma {:induction false} FirstDirectionExactly(lines: seq<string>, direction: MediaDirection)
    ensures FirstDirection(lines).None? <==> NoneDeclared(lines)
    ensures FirstDirection(lines) == Some(direction) <==> FirstDeclared(lines, direction)
  {
    if lines != [] {
      var rest := lines[1..];
      forall d ensures ParseDirection(lines[0]) == Some(d) <==> Declares(lines[0], d) {
        DeclaredExactly(lines[0], d);
      }
      if ParseDirection(lines[0]).Some? {
        assert Declares(lines[0], ParseDirection(lines[0]).value);
        assert NoneDeclared(lines[..0]);
        forall k | 0 < k < |lines| ensures !NoneDeclared(lines[..k]) {
          assert lines[..k][0] == lines[0];
        }
      } else {
        FirstDirectionExactly(rest, direction);
        FirstDeclaredInRest(lines, direction);
      }
    }
  }

  lemma NoneDeclaredRest(lines: seq<string>)
    requires lines != [] && forall d :: !Declares(lines[0], d)
    ensures NoneDeclared(lines) <==> NoneDeclared(lines[1..])
  {
    assert forall i :: 1 <= i < |lines| ==> lines[i] == lines[1..][i - 1];
  }

  lemma FirstDeclaredInRest(lines: seq<string>, direction: MediaDirection)
    requires lines != [] && forall d :: !Declares(lines[0], d)
    ensures NoneDeclared(lines) <==> NoneDeclared(lines[1..])
    ensures FirstDeclared(lines, direction) <==> FirstDeclared(lines[1..], direction)
  {
    var rest := lines[1..];
    NoneDeclaredRest(lines);
    if FirstDeclared(lines, direction) {
      var k :| 0 <= k < |lines| && Declares(lines[k], direction) && NoneDeclared(lines[..k]);
      assert lines[..k][1..] == rest[..k - 1];
      NoneDeclaredRest(lines[..k]);
      assert Declares(rest[k - 1], direction);
    }
    if FirstDeclared(rest, direction) {
      var k :| 0 <= k < |rest| && Declares(rest[k], direction) && NoneDeclared(rest[..k]);
      assert lines[..k + 1][1..] == rest[..k];
      NoneDeclaredRest(lines[..k + 1]);
      assert Declares(lines[k + 1], direction);
    }
  }

  lemma DirectionExactly(p: Parts, direction: MediaDirection)
    ensures DirectionSays(p, direction) <==> DirectionOf(p) == direction
  {
    forall d ensures FirstDirection(p.tail) == Some(d) <==> FirstDeclared(p.tail, d) {
      FirstDirectionExactly(p.tail, d);
    }
    FirstDirectionExactly(p.tail, direction);
    FirstDirectionExactly(p.head, direction);
  }

  // ---- Whole descriptions ----

  /** Attributes of encrypted, bundled or negotiated media, which the relay does not support. */
  predicate Refused(line: string) {
    || "a=ice-" <= line || "a=candidate:" <= line || "a=fingerprint:" <= line || "a=setup:" <= line
    || "a=group:BUNDLE" <= line || "a=mid:" <= line
  }

  ghost predicate NoneRefused(lines: seq<string>) { forall i :: 0 <= i < |lines| ==> !Refused(lines[i]) }

  /** The lines before, at and after the media line say what the parser reports. */
  ghost predicate Says(p: Parts, x: ParsedAudio, v6: Codec)
    requires "m=" <= p.media
  {
    && MediaSays(p.media, x.rtp.port, x.payloadTypes)
    && PayloadsSay(p.tail, x.payloadTypes, x.payloads) && EventSays(x.payloads, x.telephoneEvent)
    && ConnectionSays(p, x.rtp.ip, v6) && RtcpSays(p, x.rtp, x.rtcp, v6)
    && DirectionSays(p, x.direction)
  }

  lemma PartsExactly(p: Parts, x: ParsedAudio, v6: Codec)
    requires "m=" <= p.media
    ensures ParseParts(p.head, p.media, p.tail, v6) == Ok(x) <==> Says(p, x, v6)
  {
    MediaExactly(p.media, x.rtp.port, x.payloadTypes);
    PayloadsExactly(p.tail, x.payloadTypes, x.payloads, x.telephoneEvent);
    ConnectionExactly(p, x.rtp.ip, v6);
    RtcpExactly(p, x.rtp, x.rtcp, v6);
    DirectionExactly(p, x.direction);
  }

  predicate IsSdp(contentType: string) { EqIgnoreCase(Trim(SplitOn(contentType, ';')[0]), "application/sdp") }

  /** The text is the lines of the parts, of which only the one in the middle is a media line. */
  ghost predicate PartsOf(p: Parts, text: string) {
    p.All() == Lines(text) && "m=" <= p.media && NoneWith(p.head, "m=") && NoneWith(p.tail, "m=")
  }

  ghost predicate SaysBetween(p: Parts, text: string, x: ParsedAudio, v6: Codec) { PartsOf(p, text) && Says(p, x, v6) }

  /** An acceptable body says what is reported of it. */
  ghost predicate Describes(body: Body, x: ParsedAudio, v6: Codec) {
    && IsSdp(body.contentType) && NoneRefused(Lines(body.text))
    && exists p :: SaysBetween(p, body.text, x, v6)
  }

  lemma {:induction false} RefusedExactly(lines: seq<string>)
    ensures FirstUnsupported(lines).None? <==> NoneRefused(lines)
  {
    if lines != [] {
      RefusedExactly(lines[1..]);
      assert lines == [lines[0]] + lines[1..];
    }
  }

  lemma PartsHaveIndex(p: Parts, text: string)
    ensures PartsOf(p, text) <==> p.All() == Lines(text) && MediaIndex(Lines(text)) == Ok(|p.head|)
  {
    if p.All() == Lines(text) {
      assert PartsAt(p.All(), |p.head|) == p;
      OneMediaLine(p.All(), |p.head|);
      FindsFirst(p.head, "m=", "");
      FindsFirst(p.tail, "m=", "");
    }
  }

  /** With one media line, the parser reads the lines around it. */
  lemma ParsedByParts(body: Body, p: Parts, v6: Codec)
    requires PartsOf(p, body.text) && IsSdp(body.contentType)
    ensures ParseAudioSdp(body, v6)
            == if FirstUnsupported(Lines(body.text)).Some?
               then Err(UnsupportedAttribute(FirstUnsupported(Lines(body.text)).value))
               else ParseParts(p.head, p.media, p.tail, v6)
  {
    PartsHaveIndex(p, body.text);
    assert PartsAt(p.All(), |p.head|) == p;
  }

  lemma ParsedHasParts(body: Body, v6: Codec) returns (p: Parts)
    requires ParseAudioSdp(body, v6).Ok?
    ensures PartsOf(p, body.text) && IsSdp(body.contentType)
  {
    p := AcceptedParts(body, v6);
    PartsHaveIndex(p, body.text);
  }

  /**
   * A body is accepted exactly if it describes audio as the relations above say, and the parser reports exactly what
   * it describes.
   */
  lemma ParsesExactly(body: Body, x: ParsedAudio, v6: Codec)
    ensures ParseAudioSdp(body, v6) == Ok(x) <==> Describes(body, x, v6)
  {
    RefusedExactly(Lines(body.text));
    if ParseAudioSdp(body, v6) == Ok(x) {
      var p := ParsedHasParts(body, v6);
      ParsedByParts(body, p, v6);
      PartsExactly(p, x, v6);
      assert SaysBetween(p, body.text, x, v6);
    }
    if Describes(body, x, v6) {
      var p :| SaysBetween(p, body.text, x, v6);
      ParsedByParts(body, p, v6);
      PartsExactly(p, x, v6);
    }
  }

  /** Without an RTCP attribute behind the media line, RTCP is expected on the port behind the RTP port. */
  lemma DefaultRtcp(body: Body, v6: Codec)
    requires ParseAudioSdp(body, v6).Ok? && NoneWith(Lines(body.text), "a=rtcp:")
    ensures var x := ParseAudioSdp(body, v6).value;
            x.rtcp == if x.rtp.port < 65535 then Some(Address(x.rtp.ip, x.rtp.port + 1)) else None
  {
    var x := ParseAudioSdp(body, v6).value;
    ParsesExactly(body, x, v6);
    var p :| SaysBetween(p, body.text, x, v6);
    TailHasNone(p, "a=rtcp:");
  }

  lemma TailHasNone(p: Parts, prefix: string)
    requires NoneWith(p.All(), prefix)
    ensures NoneWith(p.tail, prefix)
  {
    forall i | 0 <= i < |p.tail| ensures !(prefix <= p.tail[i]) {
      assert p.All()[|p.head| + 1 + i] == p.tail[i];
    }
  }

  // ---- Refusals ----

  ghost predicate FirstRefused(lines: seq<string>, line: string) {
    exists k :: 0 <= k < |lines| && Refused(lines[k]) && NoneRefused(lines[..k]) && lines[k] == line
  }

  lemma {:induction false} FirstRefusedExactly(lines: seq<string>, line: string)
    ensures FirstUnsupported(lines) == Some(line) <==> FirstRefused(lines, line)
  {
    if lines != [] {
      var rest := lines[1..];
      FirstRefusedExactly(rest, line);
      if Refused(lines[0]) {
        assert NoneRefused(lines[..0]);
        forall k | 0 < k < |lines| ensures !NoneRefused(lines[..k]) {
          assert lines[..k][0] == lines[0];
        }
      } else {
        FirstRefusedRest(lines, line);
      }
    }
  }

  lemma FirstRefusedRest(lines: seq<string>, line: string)
    requires lines != [] && !Refused(lines[0])
    ensures FirstRefused(lines, line) <==> FirstRefused(lines[1..], line)
  {
    var rest := lines[1..];
    if FirstRefused(lines, line) {
      var k :| 0 <= k < |lines| && Refused(lines[k]) && NoneRefused(lines[..k]) && lines[k] == line;
      NoneRefusedRest(lines, k);
      assert Refused(rest[k - 1]) && rest[k - 1] == line;
    }
    if FirstRefused(rest, line) {
      var k :| 0 <= k < |rest| && Refused(rest[k]) && NoneRefused(rest[..k]) && rest[k] == line;
      NoneRefusedRest(lines, k + 1);
      assert Refused(lines[k + 1]) && lines[k + 1] == line;
    }
  }

  lemma NoneRefusedRest(lines: seq<string>, k: nat)
    requires 0 < k <= |lines| && !Refused(lines[0])
    ensures NoneRefused(lines[..k]) <==> NoneRefused(lines[1..][..k - 1])
  {
    var rest := lines[1..][..k - 1];
    assert lines[..k] == [lines[0]] + rest;
    assert forall i :: 0 <= i < k - 1 ==> rest[i] == lines[..k][i + 1];
  }

  ghost predicate Several(lines: seq<string>, prefix: string) {
    exists i, j :: 0 <= i < j < |lines| && prefix <= lines[i] && prefix <= lines[j]
  }

  lemma {:induction false} IndexIsFirst(lines: seq<string>, prefix: string, low: nat, high: nat)
    requires low <= high <= |lines|
    ensures var r := FirstIndex(lines, prefix, low, high);
            forall i :: low <= i < (if r.Some? then r.value else high) ==> !(prefix <= lines[i])
    decreases high - low
  {
    if low < high && !(prefix <= lines[low]) {
      IndexIsFirst(lines, prefix, low + 1, high);
    }
  }

  /** The media line is missing, one of several, or the only one. */
  lemma MediaLines(lines: seq<string>)
    ensures NoneWith(lines, "m=") ==> MediaIndex(lines) == Err(MissingMedia)
    ensures Several(lines, "m=") ==> MediaIndex(lines) == Err(MultipleMediaLines)
    ensures MediaIndex(lines).Err? ==> NoneWith(lines, "m=") || Several(lines, "m=")
  {
    IndexIsFirst(lines, "m=", 0, |lines|);
    var first := FirstIndex(lines, "m=", 0, |lines|);
    if first.Some? {
      IndexIsFirst(lines, "m=", first.value + 1, |lines|);
    }
  }

  /** Another content type, no media line, more than one, and the first refused attribute, in this order. */
  lemma RefusesInOrder(body: Body, v6: Codec)
    ensures var answer, lines := ParseAudioSdp(body, v6), Lines(body.text);
            if !IsSdp(body.contentType) then answer == Err(UnsupportedContentType(body.contentType))
            else if NoneWith(lines, "m=") then answer == Err(MissingMedia)
            else if Several(lines, "m=") then answer == Err(MultipleMediaLines)
            else !NoneRefused(lines) ==>
              answer.Err? && answer.error.UnsupportedAttribute? && FirstRefused(lines, answer.error.value)
  {
    var lines := Lines(body.text);
    MediaLines(lines);
    RefusedExactly(lines);
    if FirstUnsupported(lines).Some? {
      FirstRefusedExactly(lines, FirstUnsupported(lines).value);
    }
  }

  // ---- What the rewriter writes ----

  /** The address family of a session description's address. */
  predicate FamilyIs(family: string, ip: Ip) {
    match ip
    case V4(_, _, _, _) => family == "IP4"
    case V6(_) => family == "IP6"
  }

  /** Network type, family and text of the address. */
  predicate NamesIp(words: seq<string>, ip: Ip, v6: Codec) {
    |words| == 3 && words[0] == "IN" && FamilyIs(words[1], ip) && words[2] == PrintIp(ip, v6)
  }

  /** The written media, connection and RTCP lines consist of exactly these words. */
  lemma WrittenExactly(port: Port, payloads: seq<string>, a: Address, v6: Codec)
    requires v6.Inverse() && AllWords(payloads)
    ensures "m=" <= MediaLine(port, payloads) && "c=" <= ConnectionLine(a.ip, v6) && "a=rtcp:" <= RtcpLine(a, v6)
    ensures Words(MediaLine(port, payloads)[2..]) == ["audio", Decimal(port), "RTP/AVP"] + payloads
    ensures NamesIp(Words(ConnectionLine(a.ip, v6)[2..]), a.ip, v6)
    ensures var words := Words(RtcpLine(a, v6)[7..]);
            words != [] && words[0] == Decimal(a.port) && NamesIp(words[1..], a.ip, v6)
  {
    DigitsAreWord(Decimal(port));
    DigitsAreWord(Decimal(a.port));
    IpIsWord(a.ip, v6);
    FamilyWords(a.ip);
    var media, c := ["audio", Decimal(port), "RTP/AVP"] + payloads, ["IN", Family(a.ip), PrintIp(a.ip, v6)];
    WordsRoundTrip(media);
    WordsRoundTrip(c);
    WordsRoundTrip([Decimal(a.port)] + c);
    assert MediaLine(port, payloads)[2..] == JoinWords(media) && ConnectionLine(a.ip, v6)[2..] == JoinWords(c);
    assert RtcpLine(a, v6)[7..] == JoinWords([Decimal(a.port)] + c);
  }

  /** An origin of at least six words keeps its first three and names the address behind them; others stay. */
  lemma OriginExactly(line: string, ip: Ip, v6: Codec)
    requires v6.Inverse() && "o=" <= line
    ensures var before, after := Words(line[2..]), Words(OriginLine(line, ip, v6)[2..]);
            if |before| < 6 then OriginLine(line, ip, v6) == line
            else
              && |after| == |before| && after[..3] == before[..3] && after[6..] == before[6..]
              && NamesIp(after[3..6], ip, v6)
  {
    var before := Words(line[2..]);
    if |before| >= 6 {
      WordsAreWords(line[2..]);
      IpIsWord(ip, v6);
      FamilyWords(ip);
      var words := OriginWords(before, ip, v6);
      WordsRoundTrip(words);
      assert OriginLine(line, ip, v6)[2..] == JoinWords(words);
    }
  }
}
