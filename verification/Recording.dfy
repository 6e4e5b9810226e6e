/** The recording timeline: RTP audio packets placed by wrapping 32-bit timestamps, and the stereo WAV file. */
module Recording {
  import opened Prelude
  import opened Rtp

  const SAMPLE_RATE := 8_000
  const MAX_TIMESTAMP_GAP := SAMPLE_RATE * 5

  type Sample = s: int | -32768 <= s < 32768
  type Timestamp = t: nat | t < 0x1_0000_0000

  /** Decoded samples of a packet, and the time since the recording began at which it was observed. */
  datatype Packet = Packet(timestamp: Timestamp, samples: seq<Sample>, elapsedMs: nat)

  // ---- Little-endian files ----

  function Low(s: Sample): byte { s % 65536 % 256 }

  function High(s: Sample): byte { s % 65536 / 256 }

  function Bytes(samples: seq<Sample>): (r: seq<byte>)
    ensures |r| == 2 * |samples|
  {
    if samples == [] then []
    else Bytes(samples[..|samples| - 1]) + [Low(samples[|samples| - 1]), High(samples[|samples| - 1])]
  }

  /** The signed 16-bit value of two bytes. */
  function FromBytes(lo: byte, hi: byte): Sample {
    if hi < 128 then hi * 256 + lo else hi * 256 + lo - 65536
  }

  lemma SampleRoundTrip(s: Sample)
    ensures FromBytes(Low(s), High(s)) == s
  {
    if s < 0 {
      assert s % 65536 == s + 65536;
    }
  }

  lemma {:induction false} BytesConcat(a: seq<Sample>, b: seq<Sample>)
    ensures Bytes(a + b) == Bytes(a) + Bytes(b)
  {
    if b == [] {
      assert a + b == a;
    } else {
      BytesConcat(a, b[..|b| - 1]);
      assert (a + b)[..|a + b| - 1] == a + b[..|b| - 1];
    }
  }

  lemma {:induction false} BytesAt(samples: seq<Sample>, i: nat)
    requires i < |samples|
    ensures Bytes(samples)[2 * i] == Low(samples[i]) && Bytes(samples)[2 * i + 1] == High(samples[i])
  {
    if i < |samples| - 1 {
      BytesAt(samples[..|samples| - 1], i);
    }
  }

  function Silence(n: nat): seq<Sample> { seq(n, _ => 0) }

  function Zeros(n: nat): seq<byte> { seq(n, _ => 0) }

  lemma {:induction false} BytesOfSilence(n: nat)
    ensures Bytes(Silence(n)) == Zeros(2 * n)
  {
    if n > 0 {
      BytesOfSilence(n - 1);
      assert Silence(n)[..n - 1] == Silence(n - 1);
    }
  }

  // ---- Placing a packet ----

  /** The writer's memory of the previous packet. */
  datatype Last = Last(timestamp: Option<Timestamp>, count: nat)

  /** Wrapping difference of two timestamps. */
  function Delta(from: Timestamp, to: Timestamp): nat { if from <= to then to - from else to - from + 0x1_0000_0000 }

  function Leading(elapsedMs: nat): nat { Min(elapsedMs * SAMPLE_RATE / 1000, U32_MAX) }

  /** Samples of silence written before the packet. */
  function Filler(last: Last, p: Packet): nat {
    if last.timestamp.None? then Leading(p.elapsedMs)
    else
      var delta := Delta(last.timestamp.value, p.timestamp);
      if last.count <= delta <= last.count + MAX_TIMESTAMP_GAP then delta - last.count else 0
  }

  /** Samples of the packet that repeat the previous packet's and are dropped. */
  function Trim(last: Last, p: Packet): (r: nat)
    ensures r <= |p.samples|
  {
    if last.timestamp.None? || Delta(last.timestamp.value, p.timestamp) >= last.count then 0
    else Min(last.count - Delta(last.timestamp.value, p.timestamp), |p.samples|)
  }

  /** What write_packet appends. */
  function Added(last: Last, p: Packet): seq<Sample> {
    Silence(Filler(last, p)) + p.samples[Trim(last, p)..]
  }

  function After(p: Packet): Last { Last(Some(p.timestamp), |p.samples|) }

  lemma CountTwice(a: nat, b: nat, c: nat)
    ensures SatAdd(SatAdd(a, b), c) == SatAdd(a, b + c)
  {
  }

  /** Writing silence and then samples is writing what is added. */
  lemma AddedBytes(file: seq<byte>, count: nat, last: Last, p: Packet)
    ensures file + Bytes(Silence(Filler(last, p))) + Bytes(p.samples[Trim(last, p)..]) == file + Bytes(Added(last, p))
    ensures SatAdd(SatAdd(count, Filler(last, p)), |p.samples| - Trim(last, p)) == SatAdd(count, |Added(last, p)|)
  {
    BytesConcat(Silence(Filler(last, p)), p.samples[Trim(last, p)..]);
    CountTwice(count, Filler(last, p), |p.samples| - Trim(last, p));
  }

  class ChannelWriter {
    var file: seq<byte>
    var samplesWritten: nat
    var lastTimestamp: Option<Timestamp>
    var lastSampleCount: nat

    constructor ()
      ensures file == [] && samplesWritten == 0 && Memory() == Last(None, 0)
    {
      file, samplesWritten, lastTimestamp, lastSampleCount := [], 0, None, 0;
    }

    function Memory(): Last
      reads this
    {
      Last(lastTimestamp, lastSampleCount)
    }

    /** Zero bytes in chunks of at most 512; the byte count saturates. */
    method WriteSilence(samples: nat)
      requires samples <= U64_MAX && samplesWritten <= U64_MAX
      modifies this`file, this`samplesWritten
      ensures file == old(file) + Zeros(Min(2 * samples, U64_MAX))
      ensures samplesWritten == SatAdd(old(samplesWritten), samples)
    {
      ghost var total := Min(2 * samples, U64_MAX);
      var bytes := Min(samples * 2, U64_MAX);
      while bytes > 0
        invariant 0 <= bytes <= total
        invariant file == old(file) + Zeros(total - bytes)
        modifies this`file
      {
        var chunk := Min(bytes, 512);
        file := file + Zeros(chunk);
        bytes := bytes - chunk;
      }
      samplesWritten := SatAdd(samplesWritten, samples);
    }

    method WriteSamples(samples: seq<Sample>)
      modifies this`file
      ensures file == old(file) + Bytes(samples)
    {
      for i := 0 to |samples|
        invariant file == old(file) + Bytes(samples[..i])
      {
        assert samples[..i + 1][..i] == samples[..i];
        file := file + [Low(samples[i]), High(samples[i])];
      }
      assert samples[..|samples|] == samples;
    }

    /** The first half of write_packet: the silence before the packet, and how much of the packet to drop. */
    method WriteGap(p: Packet) returns (offset: nat)
      requires samplesWritten <= U64_MAX
      modifies this`file, this`samplesWritten
      ensures file == old(file) + Bytes(Silence(Filler(old(Memory()), p)))
      ensures samplesWritten == SatAdd(old(samplesWritten), Filler(old(Memory()), p))
      ensures offset == Trim(old(Memory()), p)
    {
      BytesOfSilence(Filler(Memory(), p));
      offset := 0;
      if lastTimestamp.Some? {
        var delta := Delta(lastTimestamp.value, p.timestamp);
        if delta >= lastSampleCount {
          var gap := delta - lastSampleCount;
          if gap <= MAX_TIMESTAMP_GAP {
            WriteSilence(gap);
          }
        } else {
          offset := Min(lastSampleCount - delta, |p.samples|);
        }
      } else {
        WriteSilence(Leading(p.elapsedMs));
      }
    }

    method WritePacket(p: Packet)
      requires samplesWritten <= U64_MAX
      modifies this
      ensures file == old(file) + Bytes(Added(old(Memory()), p))
      ensures samplesWritten == SatAdd(old(samplesWritten), |Added(old(Memory()), p)|)
      ensures Memory() == After(p)
    {
      AddedBytes(file, samplesWritten, Memory(), p);
      var offset := WriteGap(p);
      WriteSamples(p.samples[offset..]);
      samplesWritten := SatAdd(samplesWritten, |p.samples| - offset);
      lastTimestamp := Some(p.timestamp);
      lastSampleCount := |p.samples|;
    }
  }

  // ---- The timeline of a packet sequence ----

  /** What the writer remembers when packet k arrives. */
  function Before(ps: seq<Packet>, k: nat): Last
    requires k <= |ps|
  {
    if k == 0 then Last(None, 0) else After(ps[k - 1])
  }

  /** The samples on file after the first k packets. */
  function Track(ps: seq<Packet>, k: nat): seq<Sample>
    requires k <= |ps|
  {
    if k == 0 then [] else Track(ps, k - 1) + Added(Before(ps, k - 1), ps[k - 1])
  }

  lemma SaturatingCount(a: nat, b: nat)
    ensures SatAdd(Min(a, U64_MAX), b) == Min(a + b, U64_MAX)
  {
  }

  /** A writer fed packet by packet holds the track, and counts its samples up to the counter's limit. */
  method WriteAll(w: ChannelWriter, ps: seq<Packet>)
    requires w.file == [] && w.samplesWritten == 0 && w.Memory() == Last(None, 0)
    modifies w
    ensures w.file == Bytes(Track(ps, |ps|)) && w.samplesWritten == Min(|Track(ps, |ps|)|, U64_MAX)
  {
    for k := 0 to |ps|
      invariant w.file == Bytes(Track(ps, k)) && w.samplesWritten == Min(|Track(ps, k)|, U64_MAX)
      invariant w.Memory() == Before(ps, k)
    {
      BytesConcat(Track(ps, k), Added(Before(ps, k), ps[k]));
      SaturatingCount(|Track(ps, k)|, |Added(Before(ps, k), ps[k])|);
      w.WritePacket(ps[k]);
    }
  }

  /** How far the 32-bit clock went on. */
  function Forward(before: Timestamp, after: Timestamp): nat { (after - before) % 0x1_0000_0000 }

  lemma ForwardIsDelta(before: Timestamp, after: Timestamp)
    ensures Forward(before, after) == Delta(before, after)
  {
  }

  /** Where packet k belongs: eight samples of leading silence a millisecond, plus all timestamp steps up to it. */
  function Start(ps: seq<Packet>, k: nat): nat
    requires k < |ps|
  {
    if k == 0 then Min(8 * ps[0].elapsedMs, 0xFFFF_FFFF)
    else Start(ps, k - 1) + Forward(ps[k - 1].timestamp, ps[k].timestamp)
  }

  function End(ps: seq<Packet>, k: nat): nat
    requires k < |ps|
  {
    Start(ps, k) + |ps[k].samples|
  }

  /** The packet starts at most five seconds after the previous one's end, and does not end before it. */
  predicate Follows(p: Packet, q: Packet) {
    var delta := Forward(p.timestamp, q.timestamp);
    delta <= |p.samples| + 40_000 && |p.samples| <= delta + |q.samples|
  }

  predicate Joined(ps: seq<Packet>, k: nat)
    requires 0 < k < |ps|
  {
    Follows(ps[k - 1], ps[k])
  }

  predicate Continuous(ps: seq<Packet>) {
    forall k :: 0 < k < |ps| ==> Joined(ps, k)
  }

  /** One packet keeps the file length equal to the packet's place exactly when it follows its predecessor. */
  lemma AlignedExactly(ps: seq<Packet>, k: nat)
    requires 0 < k < |ps| && |Track(ps, k)| == End(ps, k - 1)
    ensures |Track(ps, k + 1)| == End(ps, k) <==> Follows(ps[k - 1], ps[k])
  {
    ForwardIsDelta(ps[k - 1].timestamp, ps[k].timestamp);
  }

  /** For continuous packets the number of samples written is the place of the last packet plus its length. */
  lemma {:induction false} LengthOfTrack(ps: seq<Packet>, k: nat)
    requires Continuous(ps) && k < |ps|
    ensures |Track(ps, k + 1)| == End(ps, k)
  {
    if k > 0 {
      LengthOfTrack(ps, k - 1);
      assert Joined(ps, k);
      AlignedExactly(ps, k);
    } else {
      assert Track(ps, 1) == Track(ps, 0) + Added(Before(ps, 0), ps[0]);
    }
  }

  /** Every packet of the sequence lies where its timestamp puts it. */
  ghost predicate Aligned(ps: seq<Packet>) { forall k :: 0 <= k < |ps| ==> AlignedAt(ps, k) }

  ghost predicate AlignedAt(ps: seq<Packet>, k: nat)
    requires k < |ps|
  {
    |Track(ps, k + 1)| == End(ps, k)
  }

  /** All packets lie where their timestamps put them exactly if each follows its predecessor. */
  lemma AlignedOnEveryRun(ps: seq<Packet>)
    ensures Aligned(ps) <==> Continuous(ps)
  {
    if Continuous(ps) {
      forall k | 0 <= k < |ps| ensures AlignedAt(ps, k) {
        LengthOfTrack(ps, k);
      }
    }
    if Aligned(ps) {
      forall k | 0 < k < |ps| ensures Joined(ps, k) {
        assert AlignedAt(ps, k - 1) && AlignedAt(ps, k);
        AlignedExactly(ps, k);
      }
    }
  }

  predicate Covers(ps: seq<Packet>, k: nat, x: nat)
    requires k < |ps|
  {
    Start(ps, k) <= x < End(ps, k)
  }

  ghost predicate FirstCover(ps: seq<Packet>, k: nat, x: nat)
    requires k < |ps|
  {
    Covers(ps, k, x) && forall j :: 0 <= j < k ==> !Covers(ps, j, x)
  }

  /** The value at a position is the sample of the first of n packets covering it, or silence if none does. */
  ghost predicate HoldsFirst(ps: seq<Packet>, n: nat, x: nat, value: Sample)
    requires n <= |ps|
  {
    || (exists k :: 0 <= k < n && FirstCover(ps, k, x) && value == ps[k].samples[x - Start(ps, k)])
    || (value == 0 && forall k :: 0 <= k < n ==> !Covers(ps, k, x))
  }

  lemma {:induction false} EndsClimb(ps: seq<Packet>, j: nat, k: nat)
    requires Continuous(ps) && j <= k < |ps|
    ensures End(ps, j) <= End(ps, k)
    decreases k
  {
    if j < k {
      EndsClimb(ps, j, k - 1);
      assert Joined(ps, k);
    }
  }

  lemma AddedAt(last: Last, p: Packet, y: nat)
    requires y < |Added(last, p)|
    ensures Added(last, p)[y] == if y < Filler(last, p) then 0 else p.samples[Trim(last, p) + y - Filler(last, p)]
  {
  }

  /** Silence and overlap of a packet that follows its predecessor. */
  lemma FollowsPlaces(p: Packet, q: Packet)
    requires Follows(p, q)
    ensures var delta := Delta(p.timestamp, q.timestamp);
            Filler(After(p), q) == SatSub(delta, |p.samples|) && Trim(After(p), q) == SatSub(|p.samples|, delta)
  {
  }

  lemma TrackNext(ps: seq<Packet>, k: nat)
    requires k < |ps|
    ensures Track(ps, k + 1) == Track(ps, k) + Added(Before(ps, k), ps[k])
  {
  }

  lemma NewPosition(ps: seq<Packet>, k: nat, x: nat)
    requires Continuous(ps) && 0 < k < |ps| && End(ps, k - 1) <= x < End(ps, k)
    requires |Track(ps, k)| == End(ps, k - 1) && |Track(ps, k + 1)| == End(ps, k)
    ensures Track(ps, k + 1)[x] == if Start(ps, k) <= x then ps[k].samples[x - Start(ps, k)] else 0
  {
    assert Joined(ps, k);
    FollowsPlaces(ps[k - 1], ps[k]);
    TrackNext(ps, k);
    AddedAt(After(ps[k - 1]), ps[k], x - End(ps, k - 1));
  }

  lemma FirstPacket(ps: seq<Packet>, x: nat)
    requires ps != [] && x < |Track(ps, 1)|
    ensures HoldsFirst(ps, 1, x, Track(ps, 1)[x])
  {
    assert Track(ps, 1) == Track(ps, 0) + Added(Before(ps, 0), ps[0]);
    AddedAt(Before(ps, 0), ps[0], x);
    assert Start(ps, 0) <= x ==> FirstCover(ps, 0, x);
  }

  /** A later packet covers no position of the old track that its predecessor does not. */
  lemma OldPosition(ps: seq<Packet>, n: nat, x: nat, value: Sample)
    requires 0 < n < |ps| && x < End(ps, n - 1) && HoldsFirst(ps, n, x, value)
    ensures HoldsFirst(ps, n + 1, x, value)
  {
    assert Start(ps, n - 1) <= Start(ps, n);
    if k :| 0 <= k < n && FirstCover(ps, k, x) && value == ps[k].samples[x - Start(ps, k)] {
      assert 0 <= k < n + 1;
    } else {
      assert !Covers(ps, n - 1, x);
      assert !Covers(ps, n, x);
    }
  }

  lemma FirstAtEnd(ps: seq<Packet>, n: nat, x: nat, value: Sample)
    requires Continuous(ps) && 0 < n < |ps| && End(ps, n - 1) <= x < End(ps, n)
    requires value == if Start(ps, n) <= x then ps[n].samples[x - Start(ps, n)] else 0
    ensures HoldsFirst(ps, n + 1, x, value)
  {
    forall j | 0 <= j < n
      ensures !Covers(ps, j, x)
    {
      EndsClimb(ps, j, n - 1);
    }
    if Start(ps, n) <= x {
      assert FirstCover(ps, n, x);
    }
  }

  /** One more packet keeps what the track holds, and adds its own samples. */
  lemma TimelineNext(ps: seq<Packet>, n: nat, x: nat)
    requires Continuous(ps) && 0 < n < |ps| && x < |Track(ps, n + 1)|
    requires |Track(ps, n)| == End(ps, n - 1) && |Track(ps, n + 1)| == End(ps, n)
    requires x < |Track(ps, n)| ==> HoldsFirst(ps, n, x, Track(ps, n)[x])
    ensures HoldsFirst(ps, n + 1, x, Track(ps, n + 1)[x])
  {
    if x < End(ps, n - 1) {
      TrackNext(ps, n);
      OldPosition(ps, n, x, Track(ps, n)[x]);
    } else {
      NewPosition(ps, n, x);
      FirstAtEnd(ps, n, x, Track(ps, n + 1)[x]);
    }
  }

  /**
   * Through any number of timestamp wraparounds, every position of the track holds the sample of the first packet
   * covering it, or zero.
   */
  lemma TrackIsTimeline(ps: seq<Packet>, n: nat, x: nat)
    requires Continuous(ps) && n < |ps| && x < |Track(ps, n + 1)|
    ensures HoldsFirst(ps, n + 1, x, Track(ps, n + 1)[x])
  {
    if x < |Track(ps, 1)| {
      FirstPacket(ps, x);
    }
    for i := 0 to n
      invariant x < |Track(ps, i + 1)| ==> HoldsFirst(ps, i + 1, x, Track(ps, i + 1)[x])
    {
      LengthOfTrack(ps, i);
      LengthOfTrack(ps, i + 1);
      if x < |Track(ps, i + 2)| {
        TimelineNext(ps, i + 1, x);
      }
    }
  }

  // ---- The WAV file ----

  datatype WavError = SizeOverflow | ExceedsRiff

  function Le16(v: nat): seq<byte>
    requires v < 65536
  {
    [v % 256, v / 256]
  }

  function Le32(v: nat): (r: seq<byte>)
    requires v <= U32_MAX
    ensures |r| == 4
  {
    Le16(v % 65536) + Le16(v / 65536)
  }

  function FromLe32(b: seq<byte>): nat
    requires |b| == 4
  {
    var b0: nat, b1: nat, b2: nat, b3: nat := b[0], b[1], b[2], b[3];
    b0 + 256 * b1 + 65536 * (b2 + 256 * b3)
  }

  const RIFF: seq<byte> := [0x52, 0x49, 0x46, 0x46]
  const WAVE_FMT: seq<byte> := [0x57, 0x41, 0x56, 0x45, 0x66, 0x6D, 0x74, 0x20]
  const DATA: seq<byte> := [0x64, 0x61, 0x74, 0x61]

  function Header(dataBytes: nat): seq<byte>
    requires dataBytes <= U32_MAX - 36
  {
    RIFF + Le32(36 + dataBytes) + WAVE_FMT + Le32(16) + Le16(1) + Le16(2) + Le32(SAMPLE_RATE) + Le32(SAMPLE_RATE * 4)
    + Le16(4) + Le16(16) + DATA + Le32(dataBytes)
  }

  /** Two bytes of a raw file, or silence past its end. */
  function SampleOrSilence(raw: seq<byte>, at: nat): (r: seq<byte>)
    ensures |r| == 2
  {
    if at + 2 <= |raw| then raw[at..at + 2] else [0, 0]
  }

  /** The first n stereo frames, caller on the left. */
  function Frames(caller: seq<byte>, callee: seq<byte>, n: nat): (r: seq<byte>)
    ensures |r| == 4 * n
  {
    if n == 0 then []
    else Frames(caller, callee, n - 1) + SampleOrSilence(caller, 2 * (n - 1)) + SampleOrSilence(callee, 2 * (n - 1))
  }

  method InterleaveWav(caller: seq<byte>, callee: seq<byte>, callerSamples: nat, calleeSamples: nat)
    returns (r: Result<seq<byte>, WavError>)
    ensures var total := Max(callerSamples, calleeSamples);
            r == if 4 * total > U64_MAX then Err(SizeOverflow)
                 else if 4 * total > U32_MAX - 36 then Err(ExceedsRiff)
                 else Ok(Header(4 * total) + Frames(caller, callee, total))
  {
    var total := Max(callerSamples, calleeSamples);
    if total * 2 > U64_MAX || total * 2 * 2 > U64_MAX {
      return Err(SizeOverflow);
    }
    var dataBytes := total * 2 * 2;
    if dataBytes > U32_MAX - 36 {
      return Err(ExceedsRiff);
    }
    var output := Header(dataBytes);
    var left, right := 0, 0;
    for i := 0 to total
      invariant output == Header(dataBytes) + Frames(caller, callee, i)
      invariant left == 2 * i && right == 2 * i
    {
      output := output + SampleOrSilence(caller, left);
      output := output + SampleOrSilence(callee, right);
      left, right := left + 2, right + 2;
    }
    r := Ok(output);
  }

  lemma Le32RoundTrip(v: nat)
    requires v <= U32_MAX
    ensures FromLe32(Le32(v)) == v
  {
  }

  function FromLe16(b: seq<byte>): nat
    requires |b| == 2
  {
    var b0: nat, b1: nat := b[0], b[1];
    b0 + 256 * b1
  }

  /** The bytes are the text's ASCII codes. */
  predicate Spells(b: seq<byte>, text: string) {
    |b| == |text| && forall i :: 0 <= i < |b| ==> b[i] as int == text[i] as int
  }

  /**
   * The header describes the file it starts: its chunks and their lengths, PCM, two channels at 8000 samples a second,
   * 32000 bytes a second in blocks of 4, and 16 bits a sample.
   */
  lemma HeaderDescribesFile(dataBytes: nat, data: seq<byte>)
    requires dataBytes <= U32_MAX - 36 && |data| == dataBytes
    ensures var file := Header(dataBytes) + data;
            && |file| == 44 + dataBytes && file[44..] == data
            && Spells(file[0..4], "RIFF") && FromLe32(file[4..8]) == |file| - 8
            && Spells(file[8..12], "WAVE") && Spells(file[12..16], "fmt ") && FromLe32(file[16..20]) == 16
            && FromLe16(file[20..22]) == 1 && FromLe16(file[22..24]) == 2
            && FromLe32(file[24..28]) == 8_000 && FromLe32(file[28..32]) == 32_000
            && FromLe16(file[32..34]) == 4 && FromLe16(file[34..36]) == 16
            && Spells(file[36..40], "data") && FromLe32(file[40..44]) == |data|
  {
    var file := Header(dataBytes) + data;
    HeaderParts(dataBytes, data);
    Le32RoundTrip(16);
    Le32RoundTrip(SAMPLE_RATE);
    Le32RoundTrip(SAMPLE_RATE * 4);
    Le32RoundTrip(36 + dataBytes);
    Le32RoundTrip(dataBytes);
  }

  /** The header's parts in their places. */
  lemma HeaderParts(dataBytes: nat, data: seq<byte>)
    requires dataBytes <= U32_MAX - 36 && |data| == dataBytes
    ensures var file := Header(dataBytes) + data;
            && |file| == 44 + dataBytes && file[44..] == data
            && file[0..4] == RIFF && file[4..8] == Le32(36 + dataBytes) && file[8..12] == WAVE_FMT[..4]
            && file[12..16] == WAVE_FMT[4..] && file[16..20] == Le32(16) && file[20..22] == Le16(1)
            && file[22..24] == Le16(2) && file[24..28] == Le32(SAMPLE_RATE) && file[28..32] == Le32(SAMPLE_RATE * 4)
            && file[32..34] == Le16(4) && file[34..36] == Le16(16) && file[36..40] == DATA
            && file[40..44] == Le32(dataBytes)
  {
    var file := Header(dataBytes) + data;
    assert file[0..4] == RIFF && file[4..8] == Le32(36 + dataBytes) && file[8..12] == WAVE_FMT[..4];
    assert file[12..16] == WAVE_FMT[4..] && file[16..20] == Le32(16) && file[20..22] == Le16(1);
    assert file[22..24] == Le16(2) && file[24..28] == Le32(SAMPLE_RATE) && file[28..32] == Le32(SAMPLE_RATE * 4);
    assert file[32..34] == Le16(4) && file[34..36] == Le16(16) && file[36..40] == DATA;
    assert file[40..44] == Le32(dataBytes);
  }

  function SampleAt(track: seq<Sample>, i: nat): Sample { if i < |track| then track[i] else 0 }

  lemma ReadBack(track: seq<Sample>, i: nat)
    ensures var b := SampleOrSilence(Bytes(track), 2 * i);
            FromBytes(b[0], b[1]) == SampleAt(track, i)
  {
    if i < |track| {
      BytesAt(track, i);
      SampleRoundTrip(track[i]);
    }
  }

  /** Frame i of the data decodes to the given samples. */
  predicate FrameIs(data: seq<byte>, i: nat, left: Sample, right: Sample) {
    && 4 * i + 4 <= |data|
    && FromBytes(data[4 * i], data[4 * i + 1]) == left
    && FromBytes(data[4 * i + 2], data[4 * i + 3]) == right
  }

  lemma FrameKept(data: seq<byte>, more: seq<byte>, i: nat, left: Sample, right: Sample)
    requires FrameIs(data, i, left, right)
    ensures FrameIs(data + more, i, left, right)
  {
  }

  lemma FrameAdded(data: seq<byte>, l: seq<byte>, r: seq<byte>, i: nat)
    requires |data| == 4 * i && |l| == 2 && |r| == 2
    ensures FrameIs(data + l + r, i, FromBytes(l[0], l[1]), FromBytes(r[0], r[1]))
  {
  }

  /** Frame i of the file holds the two tracks' samples at i, the shorter track continuing as silence. */
  lemma {:induction false} FramesDecode(caller: seq<Sample>, callee: seq<Sample>, n: nat, i: nat)
    requires i < n
    ensures FrameIs(Frames(Bytes(caller), Bytes(callee), n), i, SampleAt(caller, i), SampleAt(callee, i))
    decreases n
  {
    var data := Frames(Bytes(caller), Bytes(callee), n - 1);
    var l, r := SampleOrSilence(Bytes(caller), 2 * (n - 1)), SampleOrSilence(Bytes(callee), 2 * (n - 1));
    if i < n - 1 {
      FramesDecode(caller, callee, n - 1, i);
      FrameKept(data, l, i, SampleAt(caller, i), SampleAt(callee, i));
      FrameKept(data + l, r, i, SampleAt(caller, i), SampleAt(callee, i));
    } else {
      ReadBack(caller, i);
      ReadBack(callee, i);
      FrameAdded(data, l, r, i);
    }
  }

  /** Past the last packet's end there is only silence. */
  lemma SilentPastEnd(ps: seq<Packet>, i: nat)
    requires Continuous(ps) && (ps != [] ==> End(ps, |ps| - 1) <= i)
    ensures HoldsFirst(ps, |ps|, i, 0)
  {
    forall k | 0 <= k < |ps|
      ensures !Covers(ps, k, i)
    {
      EndsClimb(ps, k, |ps| - 1);
    }
  }

  lemma SampleInTrack(ps: seq<Packet>, i: nat)
    requires Continuous(ps) && ps != [] && i < |Track(ps, |ps|)|
    ensures HoldsFirst(ps, |ps|, i, SampleAt(Track(ps, |ps|), i))
  {
    TrackIsTimeline(ps, |ps| - 1, i);
  }

  lemma TrackEnds(ps: seq<Packet>)
    requires Continuous(ps)
    ensures |Track(ps, |ps|)| == if ps == [] then 0 else End(ps, |ps| - 1)
  {
    if ps != [] {
      LengthOfTrack(ps, |ps| - 1);
    }
  }

  lemma SampleIsTimeline(ps: seq<Packet>, i: nat)
    requires Continuous(ps)
    ensures HoldsFirst(ps, |ps|, i, SampleAt(Track(ps, |ps|), i))
  {
    TrackEnds(ps);
    if i < |Track(ps, |ps|)| {
      SampleInTrack(ps, i);
    } else {
      SilentPastEnd(ps, i);
    }
  }

  /**
   * From packets to file: frame i of the recording of two continuous channels plays, left and right, the sample of
   * each channel's first packet covering time i, or silence.
   */
  lemma RecordingIsTimeline(caller: seq<Packet>, callee: seq<Packet>, total: nat, i: nat)
    requires Continuous(caller) && Continuous(callee) && i < total
    ensures exists left: Sample, right: Sample ::
              && FrameIs(Frames(Bytes(Track(caller, |caller|)), Bytes(Track(callee, |callee|)), total), i, left, right)
              && HoldsFirst(caller, |caller|, i, left) && HoldsFirst(callee, |callee|, i, right)
  {
    FramesDecode(Track(caller, |caller|), Track(callee, |callee|), total, i);
    SampleIsTimeline(caller, i);
    SampleIsTimeline(callee, i);
  }
}
