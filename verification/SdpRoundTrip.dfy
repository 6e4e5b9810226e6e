/** A rewritten session description re-parses to the original meaning at the relay's addresses, and is a fixed point. */
module SdpRoundTrip {
  import opened Prelude
  import opened Text
  import opened Sdp
  import opened SdpRewrite

  // ---- Lines that only carry addresses ----

  predicate AddressLine(line: string) {
    StartsWith(line, "o=") || StartsWith(line, "c=") || StartsWith(line, "a=rtcp:")
  }

  /** Address lines are neither attributes, directions, media lines nor refused ones. */
  lemma AddressLineInert(line: string)
    requires AddressLine(line)
    ensures !Unsupported(line) && ParseDirection(line).None? && AttributeOf(line) == Unrelated
            && !StartsWith(line, "m=")
  {
    if StartsWith(line, "a=rtcp:") {
      assert line[0] == 'a' && line[2] == 'r' && line[3] == 't' && line[4] == 'c';
    } else {
      assert line[0] == 'o' || line[0] == 'c';
    }
  }

  /** Everything but the address lines. */
  function Others(lines: seq<string>): seq<string> {
    if lines == [] then []
    else if AddressLine(lines[0]) then Others(lines[1..])
    else [lines[0]] + Others(lines[1..])
  }

  lemma AttributesHead(line: string, rest: seq<string>)
    ensures AttributesOf([line] + rest) == [AttributeOf(line)] + AttributesOf(rest)
  {
  }

  lemma CollectHead(attribute: Attribute, rest: seq<Attribute>, offered: set<nat>, known: Attributes)
    ensures var next := Absorb(attribute, offered, known);
            Collect([attribute] + rest, offered, known)
            == if next.Err? then next else Collect(rest, offered, next.value)
  {
    assert ([attribute] + rest)[1..] == rest;
  }

  lemma CollectInert(line: string, rest: seq<string>, offered: set<nat>, known: Attributes)
    requires AddressLine(line)
    ensures Collect(AttributesOf([line] + rest), offered, known) == Collect(AttributesOf(rest), offered, known)
  {
    AddressLineInert(line);
    AttributesHead(line, rest);
    CollectHead(AttributeOf(line), AttributesOf(rest), offered, known);
  }

  lemma {:induction false} CollectOthers(lines: seq<string>, offered: set<nat>, known: Attributes)
    ensures Collect(AttributesOf(lines), offered, known) == Collect(AttributesOf(Others(lines)), offered, known)
    decreases |lines|
  {
    if lines != [] {
      var line, rest := lines[0], lines[1..];
      assert lines == [line] + rest;
      if AddressLine(line) {
        CollectInert(line, rest, offered, known);
        CollectOthers(rest, offered, known);
      } else {
        AttributesHead(line, rest);
        AttributesHead(line, Others(rest));
        CollectHead(AttributeOf(line), AttributesOf(rest), offered, known);
        CollectHead(AttributeOf(line), AttributesOf(Others(rest)), offered, known);
        if Absorb(AttributeOf(line), offered, known).Ok? {
          CollectOthers(rest, offered, Absorb(AttributeOf(line), offered, known).value);
        }
      }
    }
  }

  lemma PayloadsOthers(lines: seq<string>, types: seq<nat>)
    ensures AudioPayloads(lines, types) == AudioPayloads(Others(lines), types)
  {
    CollectOthers(lines, (set t | t in types), Attributes(map[], map[]));
  }

  lemma {:induction false} DirectionOthers(lines: seq<string>)
    ensures FirstDirection(lines) == FirstDirection(Others(lines))
  {
    if lines != [] {
      DirectionOthers(lines[1..]);
      if AddressLine(lines[0]) {
        AddressLineInert(lines[0]);
      } else {
        assert Others(lines)[1..] == Others(lines[1..]);
      }
    }
  }

  lemma {:induction false} UnsupportedOthers(lines: seq<string>)
    ensures FirstUnsupported(lines) == FirstUnsupported(Others(lines))
  {
    if lines != [] {
      UnsupportedOthers(lines[1..]);
      if AddressLine(lines[0]) {
        AddressLineInert(lines[0]);
      } else {
        assert Others(lines)[1..] == Others(lines[1..]);
      }
    }
  }

  lemma {:induction false} MediaOthers(lines: seq<string>)
    ensures Find(lines, "m=") == Find(Others(lines), "m=")
  {
    if lines != [] {
      MediaOthers(lines[1..]);
      if AddressLine(lines[0]) {
        AddressLineInert(lines[0]);
      } else {
        assert Others(lines)[1..] == Others(lines[1..]);
      }
    }
  }

  // ---- Replacing one line ----

  lemma {:induction false} OthersReplace(lines: seq<string>, prefix: string, line: string)
    requires prefix in {"o=", "c=", "a=rtcp:"} && StartsWith(line, prefix)
    ensures Others(ReplaceFirst(lines, prefix, line)) == Others(lines)
  {
    if lines != [] && !StartsWith(lines[0], prefix) {
      OthersReplace(lines[1..], prefix, line);
    }
  }

  lemma {:induction false} FindReplaced(lines: seq<string>, prefix: string, line: string)
    requires StartsWith(line, prefix) && Find(lines, prefix).Some?
    ensures Find(ReplaceFirst(lines, prefix, line), prefix) == Some(line)
  {
    if !StartsWith(lines[0], prefix) {
      FindReplaced(lines[1..], prefix, line);
      assert ReplaceFirst(lines, prefix, line)[1..] == ReplaceFirst(lines[1..], prefix, line);
    }
  }

  lemma {:induction false} FindOther(lines: seq<string>, prefix: string, line: string, other: string)
    requires prefix != [] && other != [] && prefix[0] != other[0] && StartsWith(line, prefix)
    ensures Find(ReplaceFirst(lines, prefix, line), other) == Find(lines, other)
  {
    if lines != [] {
      FindOther(lines[1..], prefix, line, other);
      if StartsWith(lines[0], prefix) {
        assert line[0] == prefix[0] == lines[0][0];
        assert ([line] + lines[1..])[1..] == lines[1..];
      } else {
        assert ReplaceFirst(lines, prefix, line)[1..] == ReplaceFirst(lines[1..], prefix, line);
      }
    }
  }

  /** Replacing a line by itself changes nothing. */
  lemma {:induction false} ReplaceSame(lines: seq<string>, prefix: string)
    requires Find(lines, prefix).Some?
    ensures ReplaceFirst(lines, prefix, Find(lines, prefix).value) == lines
  {
    if !StartsWith(lines[0], prefix) {
      ReplaceSame(lines[1..], prefix);
    }
  }

  lemma {:induction false} ReplaceClean(lines: seq<string>, prefix: string, line: string)
    requires AllClean(lines) && CleanLine(line)
    ensures AllClean(ReplaceFirst(lines, prefix, line))
  {
    if lines != [] {
      ReplaceClean(lines[1..], prefix, line);
    }
  }

  // ---- The written lines read back ----

  lemma FamilyWords(ip: Ip)
    ensures Word("IN") && Word(Family(ip)) && Word("audio") && Word("RTP/AVP")
  {
  }

  lemma MediaLineReads(port: Port, payloads: seq<string>)
    requires AllWords(payloads)
    ensures var line := MediaLine(port, payloads);
            StartsWith(line, "m=") && Words(line[2..]) == MediaWords(port, payloads) && CleanLine(line)
  {
    var words := MediaWords(port, payloads);
    FamilyWords(V4(0, 0, 0, 0));
    DigitsAreWord(Decimal(port));
    WordsRoundTrip(words);
    JoinedIsClean(words);
    PrefixedIsClean("m=", JoinWords(words));
    assert ("m=" + JoinWords(words))[2..] == JoinWords(words);
  }

  lemma ConnectionWordsRead(ip: Ip, v6: Codec)
    requires v6.Inverse()
    ensures var line := ConnectionLine(ip, v6);
            StartsWith(line, "c=") && Words(line[2..]) == ["IN", Family(ip), PrintIp(ip, v6)] && CleanLine(line)
  {
    var words := ["IN", Family(ip), PrintIp(ip, v6)];
    FamilyWords(ip);
    IpIsWord(ip, v6);
    WordsRoundTrip(words);
    JoinedIsClean(words);
    PrefixedIsClean("c=", JoinWords(words));
    assert ("c=" + JoinWords(words))[2..] == JoinWords(words);
  }

  lemma ConnectionLineReads(ip: Ip, v6: Codec)
    requires v6.Inverse()
    ensures var line := ConnectionLine(ip, v6);
            StartsWith(line, "c=") && ParseConnection(line, v6) == Ok(ip) && CleanLine(line)
  {
    ConnectionWordsRead(ip, v6);
    IpRoundTrip(ip, v6);
  }

  lemma RtcpWordsRead(a: Address, v6: Codec)
    requires v6.Inverse()
    ensures var line, words := RtcpLine(a, v6), [Decimal(a.port), "IN", Family(a.ip), PrintIp(a.ip, v6)];
            StartsWith(line, "a=rtcp:") && Words(line[7..]) == words && CleanLine(line)
  {
    var words := [Decimal(a.port), "IN", Family(a.ip), PrintIp(a.ip, v6)];
    FamilyWords(a.ip);
    DigitsAreWord(Decimal(a.port));
    IpIsWord(a.ip, v6);
    WordsRoundTrip(words);
    JoinedIsClean(words);
    PrefixedIsClean("a=rtcp:", JoinWords(words));
    assert ("a=rtcp:" + JoinWords(words))[7..] == JoinWords(words);
  }

  lemma RtcpLineReads(a: Address, ip: Ip, v6: Codec)
    requires v6.Inverse()
    ensures var line := RtcpLine(a, v6);
            StartsWith(line, "a=rtcp:") && ParseRtcp(line, ip, v6) == Ok(a) && CleanLine(line)
  {
    RtcpWordsRead(a, v6);
    NumberRoundTrip(a.port, U16_MAX);
    IpRoundTrip(a.ip, v6);
  }

  lemma OriginWordsSettle(words: seq<string>, ip: Ip, v6: Codec)
    requires v6.Inverse() && |words| >= 6 && AllWords(words)
    ensures var written := OriginWords(words, ip, v6);
            AllWords(written) && |written| == |words| && OriginWords(written, ip, v6) == written
  {
    FamilyWords(ip);
    IpIsWord(ip, v6);
  }

  /** Rewriting an origin line twice is rewriting it once. */
  lemma OriginLineSettles(line: string, ip: Ip, v6: Codec)
    requires StartsWith(line, "o=") && v6.Inverse() && CleanLine(line)
    ensures var r := OriginLine(line, ip, v6);
            OriginLine(r, ip, v6) == r && CleanLine(r)
  {
    var words := Words(line[2..]);
    if |words| >= 6 {
      WordsAreWords(line[2..]);
      OriginWordsSettle(words, ip, v6);
      var written := OriginWords(words, ip, v6);
      WordsRoundTrip(written);
      JoinedIsClean(written);
      PrefixedIsClean("o=", JoinWords(written));
      assert ("o=" + JoinWords(written))[2..] == JoinWords(written);
    }
  }

  // ---- What each edit keeps ----

  ghost predicate SameOthers(p: Parts, q: Parts) {
    Others(q.head) == Others(p.head) && Others(q.tail) == Others(p.tail)
  }

  function Found(p: Parts, prefix: string): (Option<string>, Option<string>) {
    (Find(p.head, prefix), Find(p.tail, prefix))
  }

  /** Its first origin line is as the rewriter would write it. */
  predicate OriginSettled(p: Parts, ip: Ip, v6: Codec) {
    var origin := OrElse(Find(p.head, "o="), Find(p.tail, "o="));
    origin.Some? ==> OriginLine(origin.value, ip, v6) == origin.value
  }

  function Effective(p: Parts): Option<string> { OrElse(Find(p.tail, "c="), Find(p.head, "c=")) }

  ghost predicate Clean(p: Parts) { AllClean(p.head) && AllClean(p.tail) }

  lemma {:induction false} FoundIsClean(lines: seq<string>, prefix: string)
    requires AllClean(lines)
    ensures Find(lines, prefix).Some? ==> CleanLine(Find(lines, prefix).value)
  {
    if lines != [] {
      FoundIsClean(lines[1..], prefix);
    }
  }

  lemma OriginReplaced(lines: seq<string>, ip: Ip, v6: Codec)
    requires v6.Inverse() && AllClean(lines) && Find(lines, "o=").Some?
    ensures var line := OriginLine(Find(lines, "o=").value, ip, v6);
            var r := ReplaceFirst(lines, "o=", line);
            && AllClean(r) && Others(r) == Others(lines) && Find(r, "c=") == Find(lines, "c=")
            && Find(r, "a=rtcp:") == Find(lines, "a=rtcp:") && Find(r, "o=") == Some(line)
               && OriginLine(line, ip, v6) == line
  {
    var line := OriginLine(Find(lines, "o=").value, ip, v6);
    FoundIsClean(lines, "o=");
    OriginLineSettles(Find(lines, "o=").value, ip, v6);
    ReplaceClean(lines, "o=", line);
    OthersReplace(lines, "o=", line);
    FindReplaced(lines, "o=", line);
    FindOther(lines, "o=", line, "c=");
    FindOther(lines, "o=", line, "a=rtcp:");
  }

  lemma OriginStep(p: Parts, ip: Ip, v6: Codec)
    requires v6.Inverse() && Clean(p)
    ensures var q := p.WithOrigin(ip, v6);
            && Clean(q) && SameOthers(p, q) && q.media == p.media && OriginSettled(q, ip, v6)
            && Found(q, "c=") == Found(p, "c=") && Found(q, "a=rtcp:") == Found(p, "a=rtcp:")
  {
    if Find(p.head, "o=").Some? {
      OriginReplaced(p.head, ip, v6);
    } else if Find(p.tail, "o=").Some? {
      OriginReplaced(p.tail, ip, v6);
    }
  }

  lemma ConnectionReplaced(lines: seq<string>, ip: Ip, v6: Codec)
    requires v6.Inverse() && AllClean(lines) && Find(lines, "c=").Some?
    ensures var line := ConnectionLine(ip, v6);
            var r := ReplaceFirst(lines, "c=", line);
            && AllClean(r) && Others(r) == Others(lines) && Find(r, "c=") == Some(line)
            && Find(r, "o=") == Find(lines, "o=") && Find(r, "a=rtcp:") == Find(lines, "a=rtcp:")
  {
    var line := ConnectionLine(ip, v6);
    ConnectionLineReads(ip, v6);
    ReplaceClean(lines, "c=", line);
    OthersReplace(lines, "c=", line);
    FindReplaced(lines, "c=", line);
    FindOther(lines, "c=", line, "o=");
    FindOther(lines, "c=", line, "a=rtcp:");
  }

  lemma ConnectionStep(p: Parts, ip: Ip, v6: Codec)
    requires v6.Inverse() && Clean(p) && p.Connected()
    ensures var q := p.WithConnection(ip, v6);
            && Clean(q) && SameOthers(p, q) && q.media == p.media && Effective(q) == Some(ConnectionLine(ip, v6))
            && Found(q, "o=") == Found(p, "o=") && Found(q, "a=rtcp:") == Found(p, "a=rtcp:")
  {
    if Find(p.tail, "c=").Some? {
      ConnectionReplaced(p.tail, ip, v6);
    } else {
      ConnectionReplaced(p.head, ip, v6);
    }
  }

  lemma RtcpStep(p: Parts, a: Address, v6: Codec)
    requires v6.Inverse() && Clean(p)
    ensures var q := p.WithRtcp(Some(a), v6);
            && Clean(q) && SameOthers(p, q) && q.media == p.media && q.head == p.head
            && Find(q.tail, "a=rtcp:") == Some(RtcpLine(a, v6))
            && Find(q.tail, "o=") == Find(p.tail, "o=") && Find(q.tail, "c=") == Find(p.tail, "c=")
  {
    var line := RtcpLine(a, v6);
    RtcpLineReads(a, a.ip, v6);
    if Find(p.tail, "a=rtcp:").Some? {
      ReplaceClean(p.tail, "a=rtcp:", line);
      OthersReplace(p.tail, "a=rtcp:", line);
      FindReplaced(p.tail, "a=rtcp:", line);
      FindOther(p.tail, "a=rtcp:", line, "o=");
      FindOther(p.tail, "a=rtcp:", line, "c=");
    } else {
      assert ([line] + p.tail)[1..] == p.tail;
      assert line[0] == 'a';
    }
  }

  /** The state all four edits lead to. */
  ghost predicate Settled(p: Parts, relay: Relay, v6: Codec)
    requires relay.rtcp.Some?
  {
    && OriginSettled(p, relay.rtp.ip, v6) && Effective(p) == Some(ConnectionLine(relay.rtp.ip, v6))
    && Find(p.tail, "a=rtcp:") == Some(RtcpLine(relay.rtcp.value, v6))
  }

  lemma RewrittenSettles(p: Parts, relay: Relay, v6: Codec)
    requires v6.Inverse() && Clean(p) && p.Connected() && relay.rtcp.Some?
    requires StartsWith(p.media, "m=") && |Words(p.media[2..])| >= 3
    ensures var q := p.Rewritten(relay, v6);
            && Clean(q) && SameOthers(p, q) && Settled(q, relay, v6)
            && q.media == MediaLine(relay.rtp.port, Words(p.media[2..])[3..])
    ensures p.WithMedia(relay.rtp.port).WithOrigin(relay.rtp.ip, v6).Connected()
  {
    var p1 := p.WithMedia(relay.rtp.port);
    var p2 := p1.WithOrigin(relay.rtp.ip, v6);
    var p3 := p2.WithConnection(relay.rtp.ip, v6);
    OriginStep(p1, relay.rtp.ip, v6);
    assert p1.Connected() && Found(p2, "c=") == Found(p1, "c=");
    ConnectionStep(p2, relay.rtp.ip, v6);
    RtcpStep(p3, relay.rtcp.value, v6);
    assert OriginSettled(p3, relay.rtp.ip, v6);
  }

  /** Rewriting what is settled changes nothing. */
  lemma SettledIsFixed(p: Parts, relay: Relay, payloads: seq<string>, v6: Codec)
    requires relay.rtcp.Some? && Settled(p, relay, v6) && AllWords(payloads)
             && p.media == MediaLine(relay.rtp.port, payloads)
    ensures StartsWith(p.media, "m=") && |Words(p.media[2..])| >= 3 && p.Connected()
    ensures p.Rewritten(relay, v6) == p && p.WithMedia(relay.rtp.port).WithOrigin(relay.rtp.ip, v6) == p
  {
    MediaLineReads(relay.rtp.port, payloads);
    assert MediaWords(relay.rtp.port, payloads)[3..] == payloads;
    assert p.WithMedia(relay.rtp.port) == p;
    if Find(p.head, "o=").Some? {
      ReplaceSame(p.head, "o=");
    } else if Find(p.tail, "o=").Some? {
      ReplaceSame(p.tail, "o=");
    }
    assert p.WithOrigin(relay.rtp.ip, v6) == p;
    if Find(p.tail, "c=").Some? {
      ReplaceSame(p.tail, "c=");
    } else {
      ReplaceSame(p.head, "c=");
    }
    assert p.WithConnection(relay.rtp.ip, v6) == p;
    ReplaceSame(p.tail, "a=rtcp:");
  }
}
