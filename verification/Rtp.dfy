/** The three RTP header parsers of the daemon and the packet layout of sections 5.1 and 5.3.1 of RFC 3550. */
module Rtp {
  import opened Prelude

  type byte = b: nat | b < 256

  function Be16(hi: byte, lo: byte): nat { hi * 256 + lo }

  function Be32(bytes: seq<byte>, at: nat): nat
    requires at + 4 <= |bytes|
  {
    Be16(bytes[at], bytes[at + 1]) * 65536 + Be16(bytes[at + 2], bytes[at + 3])
  }

  // Fields of the first two header bytes.
  function Version(b: byte): nat { b / 64 }
  predicate HasPadding(b: byte) { b / 32 % 2 == 1 }
  predicate HasExtension(b: byte) { b / 16 % 2 == 1 }
  function CsrcCount(b: byte): nat { b % 16 }
  function PayloadType(b: byte): nat { b % 128 }

  datatype Parsed = Parsed(payloadType: nat, timestamp: nat, ssrc: nat, payload: seq<byte>)

  /** The digit parser's view of a packet (dtmf.rs). */
  function DtmfParse(p: seq<byte>): Option<Parsed> {
    if |p| < 12 || Version(p[0]) != 2 then None
    else
      var fixed := 12 + CsrcCount(p[0]) * 4;
      if fixed > |p| then None
      else if HasExtension(p[0]) && fixed + 4 > |p| then None
      else
        var header := if HasExtension(p[0]) then fixed + 4 + Be16(p[fixed + 2], p[fixed + 3]) * 4 else fixed;
        if header > |p| then None
        else
          var padding := p[|p| - 1];
          if HasPadding(p[0]) && (padding == 0 || padding > |p| - header) then None
          else
            var end := if HasPadding(p[0]) then |p| - padding else |p|;
            Some(Parsed(PayloadType(p[1]), Be32(p, 4), Be32(p, 8), p[header..end]))
  }

  /** The recorder's view (recording.rs); it does not look at the SSRC. */
  function RecorderParse(p: seq<byte>): Option<(nat, nat, seq<byte>)> {
    if |p| < 12 || Version(p[0]) != 2 then None
    else
      var fixed := 12 + CsrcCount(p[0]) * 4;
      if |p| < fixed then None
      else if HasExtension(p[0]) && |p| < fixed + 4 then None
      else
        var offset := if HasExtension(p[0]) then fixed + (4 + Be16(p[fixed + 2], p[fixed + 3]) * 4) else fixed;
        if |p| < offset then None
        else
          var padding := if HasPadding(p[0]) then p[|p| - 1] else 0;
          if padding > SatSub(|p|, offset) then None
          else Some((PayloadType(p[1]), Be32(p, 4), p[offset..|p| - padding]))
  }

  /** The AI tap's view (media_tap.rs); an empty payload is refused. */
  function TapParse(p: seq<byte>): Option<(nat, nat, seq<byte>)> {
    if |p| < 12 || Version(p[0]) != 2 then None
    else
      var fixed := 12 + CsrcCount(p[0]) * 4;
      if fixed > |p| then None
      else if HasExtension(p[0]) && fixed + 4 > |p| then None
      else
        var offset := if HasExtension(p[0]) then fixed + (4 + Be16(p[fixed + 2], p[fixed + 3]) * 4) else fixed;
        if offset > |p| then None
        else
          var padding := if HasPadding(p[0]) then p[|p| - 1] else 0;
          if padding > SatSub(|p|, offset) || offset == |p| - padding then None
          else Some((PayloadType(p[1]), Be32(p, 4), p[offset..|p| - padding]))
  }

  // ---- The layout of RFC 3550 ----

  datatype Extension = Extension(profile: seq<byte>, body: seq<byte>)

  /** An RTP packet; CSRC list and extension are kept as raw 32-bit words. */
  datatype Packet = Packet(marker: bool, payloadType: nat, sequence: nat, timestamp: nat, ssrc: nat,
                           csrc: seq<byte>, extension: Option<Extension>, payload: seq<byte>, padding: seq<byte>) {
    /** Field ranges; a padding, if present, ends with its own length. */
    predicate WellFormed() {
      && payloadType < 128 && sequence <= U16_MAX && timestamp <= U32_MAX && ssrc <= U32_MAX
      && |csrc| % 4 == 0 && |csrc| <= 60
      && (extension.Some? ==>
            |extension.value.profile| == 2 && |extension.value.body| % 4 == 0 && |extension.value.body| / 4 <= U16_MAX)
      && (padding != [] ==> |padding| < 256 && padding[|padding| - 1] == |padding|)
    }
  }

  function Bytes2(n: nat): (r: seq<byte>)
    requires n <= U16_MAX
    ensures |r| == 2
  {
    [n / 256, n % 256]
  }

  function Bytes4(n: nat): (r: seq<byte>)
    requires n <= U32_MAX
    ensures |r| == 4
  {
    Bytes2(n / 65536) + Bytes2(n % 65536)
  }

  function FirstByte(x: Packet): byte
    requires x.WellFormed()
  {
    128 + (if x.padding != [] then 32 else 0) + (if x.extension.Some? then 16 else 0) + |x.csrc| / 4
  }

  function Fixed(x: Packet): (r: seq<byte>)
    requires x.WellFormed()
    ensures |r| == 12
  {
    [FirstByte(x), (if x.marker then 128 else 0) + x.payloadType] + Bytes2(x.sequence) + Bytes4(x.timestamp)
      + Bytes4(x.ssrc)
  }

  function ExtensionBytes(x: Packet): seq<byte>
    requires x.WellFormed()
  {
    if x.extension.None? then []
    else x.extension.value.profile + Bytes2(|x.extension.value.body| / 4) + x.extension.value.body
  }

  function Encode(x: Packet): seq<byte>
    requires x.WellFormed()
  {
    Fixed(x) + x.csrc + ExtensionBytes(x) + x.payload + x.padding
  }

  /** The packet send_tts_rtp builds. */
  function TtsPacket(payload: seq<byte>, payloadType: byte, timestamp: nat, sequence: nat, ssrc: nat): seq<byte>
    requires timestamp <= U32_MAX && sequence <= U16_MAX && ssrc <= U32_MAX
  {
    [0x80, PayloadType(payloadType)] + Bytes2(sequence) + Bytes4(timestamp) + Bytes4(ssrc) + payload
  }

  lemma FixedFields(x: Packet)
    requires x.WellFormed()
    ensures var f := Fixed(x);
            && Version(f[0]) == 2 && CsrcCount(f[0]) * 4 == |x.csrc|
            && (HasExtension(f[0]) <==> x.extension.Some?) && (HasPadding(f[0]) <==> x.padding != [])
            && PayloadType(f[1]) == x.payloadType && Be32(f, 4) == x.timestamp && Be32(f, 8) == x.ssrc
  {
  }

  /** Parsing an encoded packet gives its fields back, whatever CSRCs, extension and padding surround them. */
  lemma EncodedParses(x: Packet)
    requires x.WellFormed()
    ensures DtmfParse(Encode(x)) == Some(Parsed(x.payloadType, x.timestamp, x.ssrc, x.payload))
  {
    FixedFields(x);
    var p := Encode(x);
    var f, fixed, header := Fixed(x), 12 + |x.csrc|, 12 + |x.csrc| + |ExtensionBytes(x)|;
    assert forall i :: 0 <= i < 12 ==> p[i] == f[i];
    assert Be32(p, 4) == Be32(f, 4) && Be32(p, 8) == Be32(f, 8);
    if x.extension.Some? {
      assert p[fixed + 2] == ExtensionBytes(x)[2] && p[fixed + 3] == ExtensionBytes(x)[3];
      assert Be16(p[fixed + 2], p[fixed + 3]) * 4 == |x.extension.value.body|;
    }
    if x.padding != [] {
      assert p[|p| - 1] == x.padding[|x.padding| - 1];
    }
    assert p[header..|p| - |x.padding|] == x.payload;
  }

  /** The packet an accepted byte string encodes. */
  function Decode(p: seq<byte>): Packet
    requires DtmfParse(p).Some?
  {
    var fixed := 12 + CsrcCount(p[0]) * 4;
    var extension := if HasExtension(p[0])
                     then Some(Extension(p[fixed..fixed + 2],
                                         p[fixed + 4..fixed + 4 + Be16(p[fixed + 2], p[fixed + 3]) * 4]))
                     else None;
    var payload := DtmfParse(p).value.payload;
    var padding := if HasPadding(p[0]) then p[|p| - p[|p| - 1]..] else [];
    Packet(p[1] >= 128, PayloadType(p[1]), Be16(p[2], p[3]), Be32(p, 4), Be32(p, 8), p[12..fixed], extension, payload,
           padding)
  }

  lemma Split(q: nat, r: nat)
    ensures r < 256 ==> (q * 256 + r) / 256 == q && (q * 256 + r) % 256 == r
    ensures r < 65536 ==> (q * 65536 + r) / 65536 == q && (q * 65536 + r) % 65536 == r
  {
  }

  lemma Word16(hi: byte, lo: byte)
    ensures Be16(hi, lo) <= U16_MAX && Bytes2(Be16(hi, lo)) == [hi, lo]
  {
    Split(hi, lo);
  }

  lemma Word32(p: seq<byte>, at: nat)
    requires at + 4 <= |p|
    ensures Be32(p, at) <= U32_MAX && Bytes4(Be32(p, at)) == p[at..at + 4]
  {
    Word16(p[at], p[at + 1]);
    Word16(p[at + 2], p[at + 3]);
    Split(Be16(p[at], p[at + 1]), Be16(p[at + 2], p[at + 3]));
    assert p[at..at + 4] == [p[at], p[at + 1]] + [p[at + 2], p[at + 3]];
  }

  lemma FirstByteFields(b: byte)
    requires Version(b) == 2
    ensures b == 128 + (if HasPadding(b) then 32 else 0) + (if HasExtension(b) then 16 else 0) + CsrcCount(b)
  {
  }

  lemma WordsInRange(p: seq<byte>)
    requires |p| >= 12
    ensures Be16(p[2], p[3]) <= U16_MAX && Be32(p, 4) <= U32_MAX && Be32(p, 8) <= U32_MAX
  {
    Word32(p, 4);
    Word32(p, 8);
  }

  /** What acceptance says about the packet's parts, in terms of its length alone. */
  lemma AcceptedShape(p: seq<byte>)
    requires DtmfParse(p).Some?
    ensures |p| >= 12 && Version(p[0]) == 2 && 12 + CsrcCount(p[0]) * 4 <= |p|
    ensures |Decode(p).csrc| == CsrcCount(p[0]) * 4
    ensures HasExtension(p[0]) <==> Decode(p).extension.Some?
    ensures Decode(p).extension.Some? ==>
              var e := Decode(p).extension.value;
              var fixed := 12 + CsrcCount(p[0]) * 4;
              fixed + 4 <= |p| && |e.profile| == 2 && |e.body| == Be16(p[fixed + 2], p[fixed + 3]) * 4
    ensures HasPadding(p[0]) <==> Decode(p).padding != []
    ensures HasPadding(p[0]) ==>
            |Decode(p).padding| == p[|p| - 1] && Decode(p).padding[|Decode(p).padding| - 1] == p[|p| - 1]
  {
  }

  lemma DecodeWellFormed(p: seq<byte>)
    requires DtmfParse(p).Some?
    ensures Decode(p).WellFormed()
  {
    AcceptedShape(p);
    WordsInRange(p);
    var x, fixed := Decode(p), 12 + CsrcCount(p[0]) * 4;
    Quads(CsrcCount(p[0]));
    if x.extension.Some? {
      Word16(p[fixed + 2], p[fixed + 3]);
      Quads(Be16(p[fixed + 2], p[fixed + 3]));
    }
  }

  lemma Quads(n: nat)
    ensures n * 4 % 4 == 0 && n * 4 / 4 == n
  {
  }

  lemma FirstByteOf(x: Packet, b: byte)
    requires x.WellFormed() && Version(b) == 2 && |x.csrc| == CsrcCount(b) * 4
    requires (x.padding != [] <==> HasPadding(b)) && (x.extension.Some? <==> HasExtension(b))
    ensures FirstByte(x) == b
  {
    FirstByteFields(b);
    assert |x.csrc| / 4 == CsrcCount(b);
  }

  lemma SecondByteFields(b: byte)
    ensures b == (if b >= 128 then 128 else 0) + PayloadType(b)
  {
  }

  lemma FixedBytes(x: Packet, p: seq<byte>)
    requires x.WellFormed() && |p| >= 12 && FirstByte(x) == p[0]
    requires x.marker == (p[1] >= 128) && x.payloadType == PayloadType(p[1]) && x.sequence == Be16(p[2], p[3])
    requires x.timestamp == Be32(p, 4) && x.ssrc == Be32(p, 8)
    ensures Fixed(x) == p[..12]
  {
    Word16(p[2], p[3]);
    Word32(p, 4);
    Word32(p, 8);
    SecondByteFields(p[1]);
    assert p[..12] == [p[0], p[1]] + [p[2], p[3]] + p[4..8] + p[8..12];
  }

  lemma DecodeFixed(p: seq<byte>)
    requires DtmfParse(p).Some? && Decode(p).WellFormed()
    ensures Fixed(Decode(p)) == p[..12]
  {
    AcceptedShape(p);
    FirstByteOf(Decode(p), p[0]);
    FixedBytes(Decode(p), p);
  }

  /** Length of the header with CSRC list and extension. */
  function HeaderLength(p: seq<byte>): (n: nat)
    requires DtmfParse(p).Some?
    ensures 12 + CsrcCount(p[0]) * 4 <= n <= |p|
  {
    var fixed := 12 + CsrcCount(p[0]) * 4;
    if HasExtension(p[0]) then fixed + 4 + Be16(p[fixed + 2], p[fixed + 3]) * 4 else fixed
  }

  lemma ExtensionLayout(x: Packet, p: seq<byte>, at: nat, hi: byte, lo: byte)
    requires x.WellFormed() && x.extension.Some? && at + 4 + Be16(hi, lo) * 4 <= |p|
    requires p[at + 2] == hi && p[at + 3] == lo
    requires x.extension.value == Extension(p[at..at + 2], p[at + 4..at + 4 + Be16(hi, lo) * 4])
    ensures ExtensionBytes(x) == p[at..at + 4 + Be16(hi, lo) * 4]
  {
    Word16(hi, lo);
    var n := Be16(hi, lo);
    assert |x.extension.value.body| / 4 == n;
    assert p[at..at + 4 + n * 4] == p[at..at + 2] + [hi, lo] + p[at + 4..at + 4 + n * 4];
  }

  lemma DecodeExtension(p: seq<byte>)
    requires DtmfParse(p).Some? && Decode(p).WellFormed()
    ensures ExtensionBytes(Decode(p)) == p[12 + CsrcCount(p[0]) * 4..HeaderLength(p)]
  {
    if HasExtension(p[0]) {
      var fixed := 12 + CsrcCount(p[0]) * 4;
      ExtensionLayout(Decode(p), p, fixed, p[fixed + 2], p[fixed + 3]);
    }
  }

  lemma DecodeTail(p: seq<byte>)
    requires DtmfParse(p).Some?
    ensures Decode(p).payload + Decode(p).padding == p[HeaderLength(p)..]
  {
  }

  lemma Join(p: seq<byte>, i: nat, j: nat, k: nat)
    requires i <= j <= k <= |p|
    ensures p == p[..i] + p[i..j] + p[j..k] + p[k..]
  {
  }

  /** Every byte string the digit parser accepts is the encoding of a packet of the standard. */
  lemma AcceptedIsEncoded(p: seq<byte>)
    requires DtmfParse(p).Some?
    ensures Decode(p).WellFormed() && Encode(Decode(p)) == p
  {
    DecodeWellFormed(p);
    DecodeFixed(p);
    DecodeExtension(p);
    DecodeTail(p);
    var x, fixed, header := Decode(p), 12 + CsrcCount(p[0]) * 4, HeaderLength(p);
    Join(p, 12, fixed, header);
    calc {
      Encode(x);
      Fixed(x) + x.csrc + ExtensionBytes(x) + (x.payload + x.padding);
      p;
    }
  }

  /**
   * The three parsers agree on every byte string: the recorder accepts what the digit parser accepts and, beyond it,
   * packets whose padding bit is set with a count of zero; the tap accepts what the recorder accepts unless the
   * payload is empty. Fields and payloads are the same.
   */
  lemma ParsersAgree(p: seq<byte>)
    ensures TapParse(p) == (if RecorderParse(p).Some? && RecorderParse(p).value.2 != [] then RecorderParse(p) else None)
    ensures DtmfParse(p).Some? <==>
            RecorderParse(p).Some? && (HasPadding(p[0]) ==> p[|p| - 1] != 0)
    ensures DtmfParse(p).Some? ==>
            var d := DtmfParse(p).value; RecorderParse(p) == Some((d.payloadType, d.timestamp, d.payload))
  {
  }

  /** Every parser recovers the payload of a text-to-speech packet; the tap only a non-empty one. */
  lemma TtsParses(payload: seq<byte>, payloadType: byte, timestamp: nat, sequence: nat, ssrc: nat)
    requires timestamp <= U32_MAX && sequence <= U16_MAX && ssrc <= U32_MAX
    ensures var p := TtsPacket(payload, payloadType, timestamp, sequence, ssrc);
            && DtmfParse(p) == Some(Parsed(PayloadType(payloadType), timestamp, ssrc, payload))
            && RecorderParse(p) == Some((PayloadType(payloadType), timestamp, payload))
            && TapParse(p) == (if payload == [] then None else RecorderParse(p))
  {
    var x := Packet(false, PayloadType(payloadType), sequence, timestamp, ssrc, [], None, payload, []);
    var p := TtsPacket(payload, payloadType, timestamp, sequence, ssrc);
    assert p == Encode(x);
    EncodedParses(x);
    ParsersAgree(p);
  }
}
