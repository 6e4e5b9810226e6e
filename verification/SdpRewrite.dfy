/** Rewriting a session description for a media relay, and what re-parsing the result gives. */
module SdpRewrite {
  import opened Prelude
  import opened Text
  import opened Sdp

  datatype Relay = Relay(rtp: Address, rtcp: Option<Address>)

  datatype Prepared = Prepared(body: Body, parsed: ParsedAudio)

  // ---- The lines the rewriter writes ----

  function Family(ip: Ip): string { if ip.V4? then "IP4" else "IP6" }

  function MediaWords(port: nat, payloads: seq<string>): seq<string> { ["audio", Decimal(port), "RTP/AVP"] + payloads }

  function MediaLine(port: nat, payloads: seq<string>): string { "m=" + JoinWords(MediaWords(port, payloads)) }

  function ConnectionLine(ip: Ip, v6: Codec): string { "c=" + JoinWords(["IN", Family(ip), PrintIp(ip, v6)]) }

  function RtcpLine(a: Address, v6: Codec): string {
    "a=rtcp:" + JoinWords([Decimal(a.port), "IN", Family(a.ip), PrintIp(a.ip, v6)])
  }

  function OriginWords(words: seq<string>, ip: Ip, v6: Codec): seq<string>
    requires |words| >= 6
  {
    words[3 := "IN"][4 := Family(ip)][5 := PrintIp(ip, v6)]
  }

  /** An origin with fewer than six fields is left alone. */
  function OriginLine(line: string, ip: Ip, v6: Codec): (r: string)
    requires StartsWith(line, "o=")
    ensures StartsWith(r, "o=")
  {
    var words := Words(line[2..]);
    if |words| < 6 then line else "o=" + JoinWords(OriginWords(words, ip, v6))
  }

  // ---- Rewriting, by parts around the media line ----

  function ReplaceFirst(lines: seq<string>, prefix: string, line: string): seq<string> {
    if lines == [] then []
    else if StartsWith(lines[0], prefix) then [line] + lines[1..]
    else [lines[0]] + ReplaceFirst(lines[1..], prefix, line)
  }

  datatype Parts = Parts(head: seq<string>, media: string, tail: seq<string>) {
    function All(): seq<string> { head + [media] + tail }

    function WithMedia(port: nat): Parts
      requires StartsWith(media, "m=") && |Words(media[2..])| >= 3
    {
      this.(media := MediaLine(port, Words(media[2..])[3..]))
    }

    /** The first origin line of the whole description. */
    function WithOrigin(ip: Ip, v6: Codec): Parts {
      if Find(head, "o=").Some? then this.(head := ReplaceFirst(head, "o=", OriginLine(Find(head, "o=").value, ip, v6)))
      else if Find(tail, "o=").Some? then
        this.(tail := ReplaceFirst(tail, "o=", OriginLine(Find(tail, "o=").value, ip, v6)))
      else this
    }

    predicate Connected() { Find(tail, "c=").Some? || Find(head, "c=").Some? }

    /** The connection line in effect: the media's own one, or the session's. */
    function WithConnection(ip: Ip, v6: Codec): Parts {
      if Find(tail, "c=").Some? then this.(tail := ReplaceFirst(tail, "c=", ConnectionLine(ip, v6)))
      else this.(head := ReplaceFirst(head, "c=", ConnectionLine(ip, v6)))
    }

    function WithRtcp(rtcp: Option<Address>, v6: Codec): Parts {
      if rtcp.Some? then
        var line := RtcpLine(rtcp.value, v6);
        if Find(tail, "a=rtcp:").Some? then this.(tail := ReplaceFirst(tail, "a=rtcp:", line))
        else this.(tail := [line] + tail)
      else this.(tail := RemoveFirst(tail, "a=rtcp:"))
    }

    function Rewritten(relay: Relay, v6: Codec): Parts
      requires StartsWith(media, "m=") && |Words(media[2..])| >= 3
    {
      WithMedia(relay.rtp.port).WithOrigin(relay.rtp.ip, v6).WithConnection(relay.rtp.ip, v6).WithRtcp(relay.rtcp, v6)
    }
  }

  function RemoveFirst(lines: seq<string>, prefix: string): seq<string> {
    if lines == [] then []
    else if StartsWith(lines[0], prefix) then lines[1..]
    else [lines[0]] + RemoveFirst(lines[1..], prefix)
  }

  function PartsAt(lines: seq<string>, m: nat): Parts
    requires m < |lines|
  {
    Parts(lines[..m], lines[m], lines[m + 1..])
  }

  function RewriteLines(lines: seq<string>, m: nat, relay: Relay, v6: Codec): Result<seq<string>, SdpError>
    requires m < |lines| && StartsWith(lines[m], "m=") && |Words(lines[m][2..])| >= 3
  {
    var parts := PartsAt(lines, m);
    if !parts.WithMedia(relay.rtp.port).WithOrigin(relay.rtp.ip, v6).Connected() then Err(MissingConnection)
    else Ok(parts.Rewritten(relay, v6).All())
  }

  lemma ParsedMedia(lines: seq<string>, m: nat, v6: Codec)
    requires m < |lines| && StartsWith(lines[m], "m=")
    ensures ParseAudioLines(lines, m, v6).Ok? ==> |Words(lines[m][2..])| >= 4
  {
  }

  function RewriteAudioSdp(body: Body, relay: Relay, v6: Codec): Result<Prepared, SdpError> {
    var lines := SdpLines(body);
    if lines.Err? then Err(lines.error)
    else
      var m := MediaIndex(lines.value);
      if m.Err? then Err(m.error)
      else
        var parsed := ParseAudioLines(lines.value, m.value, v6);
        ParsedMedia(lines.value, m.value, v6);
        if parsed.Err? then Err(parsed.error)
        else
          var rewritten := RewriteLines(lines.value, m.value, relay, v6);
          if rewritten.Err? then Err(rewritten.error)
          else Ok(Prepared(Body("application/sdp", TextOf(rewritten.value)), parsed.value))
  }

  // ---- Edits in place ----

  lemma SliceHead(lines: seq<string>, low: nat, high: nat)
    requires low < high <= |lines|
    ensures lines[low..high] == [lines[low]] + lines[low + 1..high] && lines[low..high][1..] == lines[low + 1..high]
  {
  }

  lemma {:induction false} IndexFindsSame(lines: seq<string>, prefix: string, low: nat, high: nat)
    requires low <= high <= |lines|
    ensures var i := FirstIndex(lines, prefix, low, high);
            Find(lines[low..high], prefix) == if i.Some? then Some(lines[i.value]) else None
    decreases high - low
  {
    if low < high {
      SliceHead(lines, low, high);
      IndexFindsSame(lines, prefix, low + 1, high);
    }
  }

  lemma {:induction false} IndexReplaces(lines: seq<string>, prefix: string, low: nat, high: nat, line: string)
    requires low <= high <= |lines| && FirstIndex(lines, prefix, low, high).Some?
    ensures var i := FirstIndex(lines, prefix, low, high).value;
            ReplaceFirst(lines[low..high], prefix, line) == lines[i := line][low..high]
    decreases high - low
  {
    var i := FirstIndex(lines, prefix, low, high).value;
    SliceHead(lines, low, high);
    SliceHead(lines[i := line], low, high);
    if !StartsWith(lines[low], prefix) {
      IndexReplaces(lines, prefix, low + 1, high, line);
    } else {
      assert lines[i := line][low + 1..high] == lines[low + 1..high];
    }
  }

  /** The slice without its i-th line. */
  function Without(lines: seq<string>, low: nat, i: nat, high: nat): seq<string>
    requires low <= i < high <= |lines|
  {
    lines[low..i] + lines[i + 1..high]
  }

  lemma WithoutHead(lines: seq<string>, low: nat, i: nat, high: nat)
    requires low <= i < high <= |lines|
    ensures Without(lines, low, i, high)
            == if i == low then lines[low + 1..high] else [lines[low]] + Without(lines, low + 1, i, high)
  {
  }

  lemma {:induction false} IndexRemoves(lines: seq<string>, prefix: string, low: nat, high: nat)
    requires low <= high <= |lines| && FirstIndex(lines, prefix, low, high).Some?
    ensures var i := FirstIndex(lines, prefix, low, high).value;
            RemoveFirst(lines[low..high], prefix) == Without(lines, low, i, high)
    decreases high - low
  {
    SliceHead(lines, low, high);
    WithoutHead(lines, low, FirstIndex(lines, prefix, low, high).value, high);
    if !StartsWith(lines[low], prefix) {
      IndexRemoves(lines, prefix, low + 1, high);
    }
  }

  /** Searching by index and searching by parts find the same line, and replacing it is the same edit. */
  lemma IndexFinds(lines: seq<string>, prefix: string, low: nat, high: nat, line: string)
    requires low <= high <= |lines|
    ensures var i := FirstIndex(lines, prefix, low, high);
            && (i.Some? <==> Find(lines[low..high], prefix).Some?)
            && (i.Some? ==>
                  && Find(lines[low..high], prefix) == Some(lines[i.value])
                  && ReplaceFirst(lines[low..high], prefix, line) == lines[i.value := line][low..high]
                  && RemoveFirst(lines[low..high], prefix) == lines[low..i.value] + lines[i.value + 1..high])
  {
    IndexFindsSame(lines, prefix, low, high);
    if FirstIndex(lines, prefix, low, high).Some? {
      IndexReplaces(lines, prefix, low, high, line);
      IndexRemoves(lines, prefix, low, high);
    }
  }

  lemma PartsRoundTrip(lines: seq<string>, m: nat)
    requires m < |lines|
    ensures PartsAt(lines, m).All() == lines
    ensures lines[0..m] == lines[..m] && lines[m + 1..|lines|] == lines[m + 1..]
  {
  }

  lemma {:induction false} FirstIndexFrom(lines: seq<string>, prefix: string, low: nat, mid: nat, high: nat)
    requires low <= mid <= high <= |lines|
    ensures FirstIndex(lines, prefix, low, high)
            == OrElse(FirstIndex(lines, prefix, low, mid), FirstIndex(lines, prefix, mid, high))
    decreases mid - low
  {
    if low < mid && !StartsWith(lines[low], prefix) {
      FirstIndexFrom(lines, prefix, low + 1, mid, high);
    }
  }

  /** Replacing a line of the head or the tail, seen by parts. */
  lemma ReplaceByParts(lines: seq<string>, m: nat, prefix: string, line: string)
    requires m < |lines|
    ensures var p := PartsAt(lines, m);
            var h, t := FirstIndex(lines, prefix, 0, m), FirstIndex(lines, prefix, m + 1, |lines|);
            && h.Some? == Find(p.head, prefix).Some? && t.Some? == Find(p.tail, prefix).Some?
            && (h.Some? ==>
                  Find(p.head, prefix) == Some(lines[h.value])
                  && p.(head := ReplaceFirst(p.head, prefix, line)) == PartsAt(lines[h.value := line], m))
            && (t.Some? ==>
                  Find(p.tail, prefix) == Some(lines[t.value])
                  && p.(tail := ReplaceFirst(p.tail, prefix, line)) == PartsAt(lines[t.value := line], m))
  {
    PartsRoundTrip(lines, m);
    IndexFinds(lines, prefix, 0, m, line);
    IndexFinds(lines, prefix, m + 1, |lines|, line);
    var h, t := FirstIndex(lines, prefix, 0, m), FirstIndex(lines, prefix, m + 1, |lines|);
    if h.Some? {
      PartsRoundTrip(lines[h.value := line], m);
      assert lines[h.value := line][m + 1..] == lines[m + 1..];
    }
    if t.Some? {
      PartsRoundTrip(lines[t.value := line], m);
      assert lines[t.value := line][..m] == lines[..m];
    }
  }

  /** rewrite_origin_address */
  method RewriteOrigin(lines: seq<string>, m: nat, ip: Ip, v6: Codec) returns (r: seq<string>)
    requires m < |lines| && !StartsWith(lines[m], "o=")
    ensures |r| == |lines| && PartsAt(r, m) == PartsAt(lines, m).WithOrigin(ip, v6)
  {
    r := lines;
    var i := FirstIndex(r, "o=", 0, |r|);
    FirstIndexFrom(lines, "o=", 0, m, |lines|);
    if i.Some? {
      ReplaceByParts(lines, m, "o=", OriginLine(lines[i.value], ip, v6));
      var words := Words(r[i.value][2..]);
      if |words| >= 6 {
        words := words[3 := "IN"];
        words := words[4 := Family(ip)];
        words := words[5 := PrintIp(ip, v6)];
        r := r[i.value := "o=" + JoinWords(words)];
      }
      assert r == lines[i.value := OriginLine(lines[i.value], ip, v6)];
    } else {
      ReplaceByParts(lines, m, "o=", "");
    }
  }

  method RewriteConnection(lines: seq<string>, m: nat, ip: Ip, v6: Codec) returns (r: Result<seq<string>, SdpError>)
    requires m < |lines|
    ensures if PartsAt(lines, m).Connected()
            then r.Ok? && |r.value| == |lines| && PartsAt(r.value, m) == PartsAt(lines, m).WithConnection(ip, v6)
            else r == Err(MissingConnection)
  {
    var line := ConnectionLine(ip, v6);
    ReplaceByParts(lines, m, "c=", line);
    var index := OrElse(FirstIndex(lines, "c=", m + 1, |lines|), FirstIndex(lines, "c=", 0, m));
    if index.None? {
      return Err(MissingConnection);
    }
    r := Ok(lines[index.value := line]);
  }

  lemma InsertedByParts(lines: seq<string>, m: nat, line: string)
    requires m < |lines|
    ensures var p := PartsAt(lines, m);
            p.(tail := [line] + p.tail).All() == lines[..m + 1] + [line] + lines[m + 1..]
  {
  }

  lemma RemovedByParts(lines: seq<string>, m: nat, i: nat)
    requires m < i < |lines|
    ensures var p := PartsAt(lines, m);
            p.(tail := Without(lines, m + 1, i, |lines|)).All() == lines[..i] + lines[i + 1..]
  {
    assert lines[..i] == lines[..m] + [lines[m]] + lines[m + 1..i];
  }

  /** Removing the first RTCP attribute after the media line, by index and by parts. */
  lemma RtcpRemoved(lines: seq<string>, m: nat)
    requires m < |lines|
    ensures var i := FirstIndex(lines, "a=rtcp:", m + 1, |lines|);
            RemoveFirst(lines[m + 1..], "a=rtcp:")
            == if i.Some? then Without(lines, m + 1, i.value, |lines|) else lines[m + 1..]
  {
    PartsRoundTrip(lines, m);
    IndexFindsSame(lines, "a=rtcp:", m + 1, |lines|);
    if FirstIndex(lines, "a=rtcp:", m + 1, |lines|).Some? {
      IndexRemoves(lines, "a=rtcp:", m + 1, |lines|);
    } else {
      NothingToRemove(lines[m + 1..], "a=rtcp:");
    }
  }

  lemma RtcpWritten(lines: seq<string>, m: nat, rtcp: Address, v6: Codec)
    requires m < |lines|
    ensures var i, line := FirstIndex(lines, "a=rtcp:", m + 1, |lines|), RtcpLine(rtcp, v6);
            PartsAt(lines, m).WithRtcp(Some(rtcp), v6).All()
            == if i.Some? then lines[i.value := line] else lines[..m + 1] + [line] + lines[m + 1..]
  {
    var i, line := FirstIndex(lines, "a=rtcp:", m + 1, |lines|), RtcpLine(rtcp, v6);
    ReplaceByParts(lines, m, "a=rtcp:", line);
    if i.Some? {
      PartsRoundTrip(lines[i.value := line], m);
    } else {
      InsertedByParts(lines, m, line);
    }
  }

  lemma RtcpErased(lines: seq<string>, m: nat, v6: Codec)
    requires m < |lines|
    ensures var i := FirstIndex(lines, "a=rtcp:", m + 1, |lines|);
            PartsAt(lines, m).WithRtcp(None, v6).All()
            == if i.Some? then lines[..i.value] + lines[i.value + 1..] else lines
  {
    var i := FirstIndex(lines, "a=rtcp:", m + 1, |lines|);
    RtcpRemoved(lines, m);
    if i.Some? {
      RemovedByParts(lines, m, i.value);
    } else {
      PartsRoundTrip(lines, m);
    }
  }

  method RewriteRtcp(lines: seq<string>, m: nat, rtcp: Option<Address>, v6: Codec) returns (r: seq<string>)
    requires m < |lines|
    ensures r == PartsAt(lines, m).WithRtcp(rtcp, v6).All()
  {
    r := lines;
    var index := FirstIndex(lines, "a=rtcp:", m + 1, |lines|);
    if rtcp.Some? {
      RtcpWritten(lines, m, rtcp.value, v6);
      var line := RtcpLine(rtcp.value, v6);
      if index.Some? {
        r := r[index.value := line];
      } else {
        r := r[..m + 1] + [line] + r[m + 1..];
      }
    } else {
      RtcpErased(lines, m, v6);
      if index.Some? {
        r := r[..index.value] + r[index.value + 1..];
      }
    }
  }

  lemma {:induction false} NothingToRemove(lines: seq<string>, prefix: string)
    requires Find(lines, prefix).None?
    ensures RemoveFirst(lines, prefix) == lines
  {
    if lines != [] {
      NothingToRemove(lines[1..], prefix);
    }
  }

  /** The edits of rewrite_audio_sdp on its vector of lines. */
  method EditLines(source: seq<string>, m: nat, relay: Relay, v6: Codec) returns (r: Result<seq<string>, SdpError>)
    requires m < |source| && StartsWith(source[m], "m=") && |Words(source[m][2..])| >= 3
    ensures r == RewriteLines(source, m, relay, v6)
  {
    var lines := source[m := MediaLine(relay.rtp.port, Words(source[m][2..])[3..])];
    assert PartsAt(lines, m) == PartsAt(source, m).WithMedia(relay.rtp.port);
    assert lines[m][0] == 'm';
    lines := RewriteOrigin(lines, m, relay.rtp.ip, v6);
    r := RewriteConnection(lines, m, relay.rtp.ip, v6);
    if r.Ok? {
      lines := RewriteRtcp(r.value, m, relay.rtcp, v6);
      r := Ok(lines);
    }
  }

  method Rewrite(body: Body, relay: Relay, v6: Codec) returns (r: Result<Prepared, SdpError>)
    ensures r == RewriteAudioSdp(body, relay, v6)
  {
    var read := SdpLines(body);
    if read.Err? {
      return Err(read.error);
    }
    var index := MediaIndex(read.value);
    if index.Err? {
      return Err(index.error);
    }
    var parsed := ParseAudioLines(read.value, index.value, v6);
    if parsed.Err? {
      return Err(parsed.error);
    }
    ParsedMedia(read.value, index.value, v6);
    var lines := EditLines(read.value, index.value, relay, v6);
    if lines.Err? {
      return Err(lines.error);
    }
    r := Ok(Prepared(Body("application/sdp", TextOf(lines.value)), parsed.value));
  }
}
