/** Text handling of the SDP code: lines, words, decimal numbers and IP addresses, with their round trips. */
module Text {
  import opened Prelude

  predicate StartsWith(s: string, prefix: string) { prefix <= s }

  // ---- Splitting and joining ----

  function SplitOn(s: string, c: char): (r: seq<string>)
    ensures r != []
  {
    if s == [] then [[]]
    else
      var rest := SplitOn(s[1..], c);
      if s[0] == c then [[]] + rest else [[s[0]] + rest[0]] + rest[1..]
  }

  function Join(parts: seq<string>, separator: string): string {
    if parts == [] then [] else if |parts| == 1 then parts[0] else parts[0] + separator + Join(parts[1..], separator)
  }

  lemma {:induction false} SplitSeparated(a: string, c: char, b: string)
    requires c !in a
    ensures SplitOn(a + [c] + b, c) == [a] + SplitOn(b, c)
  {
    if a == [] {
      assert a + [c] + b == [c] + b;
    } else {
      SplitSeparated(a[1..], c, b);
      assert a == [a[0]] + a[1..];
      assert (a + [c] + b)[1..] == a[1..] + [c] + b;
    }
  }

  lemma {:induction false} SplitWhole(a: string, c: char)
    requires c !in a
    ensures SplitOn(a, c) == [a]
  {
    if a != [] {
      SplitWhole(a[1..], c);
      assert a == [a[0]] + a[1..];
    }
  }

  lemma {:induction false} PartsLack(s: string, c: char)
    ensures forall i :: 0 <= i < |SplitOn(s, c)| ==> c !in SplitOn(s, c)[i]
  {
    if s != [] {
      PartsLack(s[1..], c);
    }
  }

  // ---- Lines ----

  function TrimCr(s: string): string {
    if s != [] && s[|s| - 1] == '\r' then TrimCr(s[..|s| - 1]) else s
  }

  function CleanLines(parts: seq<string>): seq<string> {
    if parts == [] then []
    else (if TrimCr(parts[0]) == [] then [] else [TrimCr(parts[0])]) + CleanLines(parts[1..])
  }

  /** Lines without their terminators; empty ones are dropped. */
  function Lines(text: string): seq<string> { CleanLines(SplitOn(text, '\n')) }

  /** A line that survives writing and reading. */
  predicate CleanLine(line: string) { line != [] && '\n' !in line && line[|line| - 1] != '\r' }

  predicate AllClean(lines: seq<string>) { forall i :: 0 <= i < |lines| ==> CleanLine(lines[i]) }

  lemma {:induction false} TrimCrClean(s: string)
    requires '\n' !in s
    ensures TrimCr(s) == [] || CleanLine(TrimCr(s))
  {
    if s != [] && s[|s| - 1] == '\r' {
      TrimCrClean(s[..|s| - 1]);
    }
  }

  lemma {:induction false} CleanLinesClean(parts: seq<string>)
    requires forall i :: 0 <= i < |parts| ==> '\n' !in parts[i]
    ensures AllClean(CleanLines(parts))
  {
    if parts != [] {
      TrimCrClean(parts[0]);
      CleanLinesClean(parts[1..]);
    }
  }

  lemma LinesClean(text: string)
    ensures AllClean(Lines(text))
  {
    PartsLack(text, '\n');
    CleanLinesClean(SplitOn(text, '\n'));
  }

  /** Lines as the rewriter writes them. */
  function TextOf(lines: seq<string>): string { Join(lines, "\r\n") + "\r\n" }

  lemma FirstLineOf(line: string, rest: string)
    requires CleanLine(line)
    ensures Lines(line + "\r\n" + rest) == [line] + Lines(rest)
  {
    var ended := line + "\r";
    assert line + "\r\n" + rest == ended + ['\n'] + rest;
    SplitSeparated(ended, '\n', rest);
    assert ended[..|ended| - 1] == line;
    assert TrimCr(ended) == TrimCr(line) == line;
    assert ([ended] + SplitOn(rest, '\n'))[1..] == SplitOn(rest, '\n');
  }

  lemma BlankText()
    ensures Lines("") == [] && Lines("\r\n") == []
  {
    SplitWhole("", '\n');
    assert "\r\n" == "\r" + ['\n'] + "";
    SplitSeparated("\r", '\n', "");
    assert TrimCr("\r") == [];
  }

  /** Reading back what was written gives the same lines. */
  lemma {:induction false} LinesRoundTrip(lines: seq<string>)
    requires AllClean(lines)
    ensures Lines(TextOf(lines)) == lines
  {
    BlankText();
    if |lines| == 1 {
      FirstLineOf(lines[0], "");
      assert TextOf(lines) == lines[0] + "\r\n" + "";
    } else if lines != [] {
      LinesRoundTrip(lines[1..]);
      FirstLineOf(lines[0], TextOf(lines[1..]));
      assert TextOf(lines) == lines[0] + "\r\n" + TextOf(lines[1..]);
    } else {
      assert TextOf(lines) == "\r\n";
    }
  }

  // ---- Words ----

  /** The White_Space property of Unicode. */
  predicate White(c: char) {
    var n := c as int;
    || 0x9 <= n <= 0xD || n == 0x20 || n == 0x85 || n == 0xA0 || n == 0x1680 || 0x2000 <= n <= 0x200A
    || n == 0x2028 || n == 0x2029 || n == 0x202F || n == 0x205F || n == 0x3000
  }

  predicate Word(w: string) { w != [] && forall i :: 0 <= i < |w| ==> !White(w[i]) }

  predicate AllWords(ws: seq<string>) { forall i :: 0 <= i < |ws| ==> Word(ws[i]) }

  /** Length of the longest prefix without white space. */
  function WordLength(s: string): (n: nat)
    ensures n <= |s| && (forall i :: 0 <= i < n ==> !White(s[i])) && (n < |s| ==> White(s[n]))
  {
    if s == [] || White(s[0]) then 0 else 1 + WordLength(s[1..])
  }

  /** split_whitespace */
  function Words(s: string): (ws: seq<string>)
    decreases |s|
  {
    if s == [] then []
    else if White(s[0]) then Words(s[1..])
    else [s[..WordLength(s)]] + Words(s[WordLength(s)..])
  }

  lemma {:induction false} WordsAreWords(s: string)
    ensures AllWords(Words(s))
    decreases |s|
  {
    if s != [] {
      if White(s[0]) {
        WordsAreWords(s[1..]);
      } else {
        WordsAreWords(s[WordLength(s)..]);
      }
    }
  }

  function JoinWords(ws: seq<string>): string { Join(ws, " ") }

  lemma {:induction false} WordLengthOf(w: string, rest: string)
    requires (forall i :: 0 <= i < |w| ==> !White(w[i])) && (rest == [] || White(rest[0]))
    ensures WordLength(w + rest) == |w|
  {
    if w == [] {
      assert w + rest == rest;
    } else {
      WordLengthOf(w[1..], rest);
      assert (w + rest)[1..] == w[1..] + rest;
    }
  }

  lemma FirstWord(w: string, rest: string)
    requires Word(w) && (rest == [] || White(rest[0]))
    ensures Words(w + rest) == [w] + Words(rest)
  {
    WordLengthOf(w, rest);
    assert (w + rest)[..|w|] == w && (w + rest)[|w|..] == rest;
  }

  lemma WordThenSpace(w: string, rest: string)
    requires Word(w)
    ensures Words(w + " " + rest) == [w] + Words(rest)
  {
    FirstWord(w, " " + rest);
    assert w + " " + rest == w + (" " + rest);
    assert (" " + rest)[1..] == rest;
  }

  lemma {:induction false} WordsRoundTrip(ws: seq<string>)
    requires AllWords(ws)
    ensures Words(JoinWords(ws)) == ws
  {
    if |ws| == 1 {
      FirstWord(ws[0], "");
      assert ws[0] + "" == ws[0];
    } else if ws != [] {
      WordsRoundTrip(ws[1..]);
      WordThenSpace(ws[0], JoinWords(ws[1..]));
    }
  }

  /** Joined words make a clean ending for a line. */
  lemma {:induction false} JoinedIsClean(ws: seq<string>)
    requires AllWords(ws) && ws != []
    ensures CleanLine(JoinWords(ws))
  {
    if |ws| > 1 {
      JoinedIsClean(ws[1..]);
    }
  }

  lemma PrefixedIsClean(prefix: string, line: string)
    requires CleanLine(line) && '\n' !in prefix
    ensures CleanLine(prefix + line)
  {
  }

  function TrimStart(s: string): string {
    if s != [] && White(s[0]) then TrimStart(s[1..]) else s
  }

  function TrimEnd(s: string): string {
    if s != [] && White(s[|s| - 1]) then TrimEnd(s[..|s| - 1]) else s
  }

  function Trim(s: string): string { TrimEnd(TrimStart(s)) }

  /** The text before and after the first `c`. */
  function SplitOnce(s: string, c: char): Option<(string, string)> {
    if s == [] then None
    else if s[0] == c then Some(([], s[1..]))
    else
      var r := SplitOnce(s[1..], c);
      if r.None? then None else Some(([s[0]] + r.value.0, r.value.1))
  }

  /** The text before and after the first white space. */
  function SplitOnceWhite(s: string): Option<(string, string)> {
    if WordLength(s) == |s| then None else Some((s[..WordLength(s)], s[WordLength(s) + 1..]))
  }

  function Lower(c: char): char { if 'A' <= c <= 'Z' then c - 'A' + 'a' else c }

  predicate EqIgnoreCase(s: string, t: string) {
    |s| == |t| && forall i :: 0 <= i < |s| ==> Lower(s[i]) == Lower(t[i])
  }

  // ---- Decimal numbers ----

  predicate Digit(c: char) { '0' <= c <= '9' }

  predicate AllDigits(s: string) { forall i :: 0 <= i < |s| ==> Digit(s[i]) }

  function Value(s: string): nat
    requires AllDigits(s)
  {
    if s == [] then 0 else Value(s[..|s| - 1]) * 10 + (s[|s| - 1] - '0') as nat
  }

  /** Unsigned parsing as the standard library does it: one optional plus sign, any number of leading zeros. */
  function ParseUint(s: string, max: nat): (r: Option<nat>)
    ensures r.Some? ==> r.value <= max
  {
    var digits := if s != [] && s[0] == '+' then s[1..] else s;
    if digits == [] || !AllDigits(digits) || Value(digits) > max then None else Some(Value(digits))
  }

  function DigitChar(d: nat): (c: char)
    requires d < 10
    ensures Digit(c) && (c - '0') as nat == d
  {
    '0' + d as char
  }

  function Decimal(n: nat): (s: string)
    ensures s != [] && AllDigits(s)
  {
    (if n < 10 then [] else Decimal(n / 10)) + [DigitChar(n % 10)]
  }

  lemma {:induction false} DecimalValue(n: nat)
    ensures Value(Decimal(n)) == n
  {
    var s := Decimal(n);
    if n >= 10 {
      DecimalValue(n / 10);
      assert s[..|s| - 1] == Decimal(n / 10);
    } else {
      assert s[..|s| - 1] == [];
    }
  }

  lemma NumberRoundTrip(n: nat, max: nat)
    requires n <= max
    ensures ParseUint(Decimal(n), max) == Some(n)
  {
    DecimalValue(n);
  }

  lemma DigitsAreWord(s: string)
    requires s != [] && AllDigits(s)
    ensures Word(s) && '.' !in s && '/' !in s && ':' !in s
  {
  }

  // ---- IP addresses ----

  type Octet = b: nat | b < 256

  /** The eight 16-bit groups of an IPv6 address. */
  type Groups = g: seq<nat> | |g| == 8 && forall i :: 0 <= i < |g| ==> g[i] <= U16_MAX witness [0, 0, 0, 0, 0, 0, 0, 0]

  datatype Ip = V4(a: Octet, b: Octet, c: Octet, d: Octet) | V6(groups: Groups)

  type Port = p: nat | p <= U16_MAX

  datatype Address = Address(ip: Ip, port: Port)

  /** The text form of IPv6 addresses. */
  datatype Codec = Codec(show: Groups -> string, read: string -> Option<Groups>) {
    /** Printing is inverted by parsing, and yields one word with a colon in it. */
    ghost predicate Inverse() {
      forall g :: Word(show(g)) && ':' in show(g) && read(show(g)) == Some(g)
    }
  }

  function PrintIp(ip: Ip, v6: Codec): string {
    match ip
    case V4(a, b, c, d) => Join([Decimal(a), Decimal(b), Decimal(c), Decimal(d)], ".")
    case V6(groups) => v6.show(groups)
  }

  /** One to three digits, no leading zero, at most 255. */
  function ParseOctet(s: string): Option<Octet> {
    if s == [] || |s| > 3 || !AllDigits(s) || (|s| > 1 && s[0] == '0') || Value(s) > 255 then None else Some(Value(s))
  }

  function ParseV4(s: string): Option<Ip> {
    var parts := SplitOn(s, '.');
    if |parts| != 4 then None
    else
      var a, b, c, d := ParseOctet(parts[0]), ParseOctet(parts[1]), ParseOctet(parts[2]), ParseOctet(parts[3]);
      if a.None? || b.None? || c.None? || d.None? then None else Some(V4(a.value, b.value, c.value, d.value))
  }

  function ParseIp(s: string, v6: Codec): Option<Ip> {
    if ParseV4(s).Some? then ParseV4(s)
    else if v6.read(s).Some? then Some(V6(v6.read(s).value)) else None
  }

  lemma OctetRoundTrip(b: Octet)
    ensures ParseOctet(Decimal(b)) == Some(b)
  {
    DecimalValue(b);
    if b >= 10 {
      var tens := b / 10;
      assert Decimal(b) == Decimal(tens) + [DigitChar(b % 10)];
      if tens >= 10 {
        assert Decimal(tens) == Decimal(tens / 10) + [DigitChar(tens % 10)];
      }
    }
  }

  lemma {:induction false} JoinedSplits(parts: seq<string>, c: char)
    requires parts != [] && forall i :: 0 <= i < |parts| ==> c !in parts[i]
    ensures SplitOn(Join(parts, [c]), c) == parts
  {
    if |parts| == 1 {
      SplitWhole(parts[0], c);
    } else {
      var rest := Join(parts[1..], [c]);
      JoinedSplits(parts[1..], c);
      SplitSeparated(parts[0], c, rest);
      assert Join(parts, [c]) == parts[0] + [c] + rest;
      assert parts == [parts[0]] + parts[1..];
    }
  }

  /** Words joined by a separator without white space are one word, with the separator in it. */
  lemma {:induction false} JoinedWord(parts: seq<string>, c: char)
    requires parts != [] && AllWords(parts) && !White(c)
    ensures Word(Join(parts, [c])) && (|parts| > 1 ==> c in Join(parts, [c]))
  {
    if |parts| > 1 {
      JoinedWord(parts[1..], c);
      assert Join(parts, [c])[|parts[0]|] == c;
    }
  }

  /** Dotted quads read back as the address they print. */
  lemma V4RoundTrip(ip: Ip, v6: Codec)
    requires ip.V4?
    ensures ParseV4(PrintIp(ip, v6)) == Some(ip)
  {
    var a, b, c, d := Decimal(ip.a), Decimal(ip.b), Decimal(ip.c), Decimal(ip.d);
    DigitsAreWord(a);
    DigitsAreWord(b);
    DigitsAreWord(c);
    DigitsAreWord(d);
    JoinedSplits([a, b, c, d], '.');
    OctetRoundTrip(ip.a);
    OctetRoundTrip(ip.b);
    OctetRoundTrip(ip.c);
    OctetRoundTrip(ip.d);
  }

  lemma {:induction false} SplitKeeps(s: string, c: char, x: char)
    requires x in s && x != c
    ensures exists i :: 0 <= i < |SplitOn(s, c)| && x in SplitOn(s, c)[i]
  {
    var rest := SplitOn(s[1..], c);
    if s[0] == x {
      assert x in SplitOn(s, c)[0];
    } else {
      assert s == [s[0]] + s[1..];
      SplitKeeps(s[1..], c, x);
      var i :| 0 <= i < |rest| && x in rest[i];
      assert x in SplitOn(s, c)[if s[0] == c then i + 1 else i];
    }
  }

  /** No text with a colon is a dotted quad. */
  lemma ColonIsNotV4(s: string)
    requires ':' in s
    ensures ParseV4(s).None?
  {
    SplitKeeps(s, '.', ':');
    var parts := SplitOn(s, '.');
    var i :| 0 <= i < |parts| && ':' in parts[i];
    assert !AllDigits(parts[i]) by {
      var k :| 0 <= k < |parts[i]| && parts[i][k] == ':';
      assert !Digit(parts[i][k]);
    }
    assert ParseOctet(parts[i]).None?;
  }

  lemma IpRoundTrip(ip: Ip, v6: Codec)
    requires v6.Inverse()
    ensures ParseIp(PrintIp(ip, v6), v6) == Some(ip)
  {
    if ip.V4? {
      V4RoundTrip(ip, v6);
    } else {
      ColonIsNotV4(v6.show(ip.groups));
    }
  }

  lemma IpIsWord(ip: Ip, v6: Codec)
    requires v6.Inverse()
    ensures Word(PrintIp(ip, v6))
  {
    if ip.V4? {
      DigitsAreWord(Decimal(ip.a));
      DigitsAreWord(Decimal(ip.b));
      DigitsAreWord(Decimal(ip.c));
      DigitsAreWord(Decimal(ip.d));
      JoinedWord([Decimal(ip.a), Decimal(ip.b), Decimal(ip.c), Decimal(ip.d)], '.');
    }
  }

  // ---- A text form of IPv6 addresses ----

  function HexChar(d: nat): char
    requires d < 16
  {
    if d < 10 then '0' + d as char else 'a' + (d - 10) as char
  }

  function HexDigit(c: char): Option<nat> {
    if '0' <= c <= '9' then Some((c - '0') as nat)
    else if 'a' <= c <= 'f' then Some((c - 'a') as nat + 10)
    else None
  }

  lemma HexDigitReads(d: nat)
    requires d < 16
    ensures HexDigit(HexChar(d)) == Some(d) && HexChar(d) != ':' && !White(HexChar(d))
  {
  }

  /** A group as four hexadecimal digits. */
  function Hex4(x: nat): string
    requires x <= U16_MAX
  {
    [HexChar(x / 16 / 16 / 16), HexChar(x / 16 / 16 % 16), HexChar(x / 16 % 16), HexChar(x % 16)]
  }

  function ReadHex4(s: string): (r: Option<nat>)
    ensures r.Some? ==> r.value <= U16_MAX
  {
    if |s| != 4 then None
    else
      var a, b, c, d := HexDigit(s[0]), HexDigit(s[1]), HexDigit(s[2]), HexDigit(s[3]);
      if a.None? || b.None? || c.None? || d.None? || a.value > 15 || b.value > 15 || c.value > 15 || d.value > 15
      then None
      else Some(((a.value * 16 + b.value) * 16 + c.value) * 16 + d.value)
  }

  lemma LastDigit(x: nat)
    ensures x / 16 * 16 + x % 16 == x
  {
  }

  lemma Hex4Reads(x: nat)
    requires x <= U16_MAX
    ensures ReadHex4(Hex4(x)) == Some(x) && Word(Hex4(x)) && ':' !in Hex4(x)
  {
    var y := x / 16;
    var z := y / 16;
    LastDigit(x);
    LastDigit(y);
    LastDigit(z);
    HexDigitReads(z / 16);
    HexDigitReads(z % 16);
    HexDigitReads(y % 16);
    HexDigitReads(x % 16);
  }

  /** The full form: eight groups of four digits, separated by colons. */
  function GroupTexts(g: Groups): seq<string> { seq(8, i requires 0 <= i < 8 => Hex4(g[i])) }

  function ShowGroups(g: Groups): string { Join(GroupTexts(g), ":") }

  function ReadGroups(s: string): Option<Groups> {
    var parts := SplitOn(s, ':');
    if |parts| != 8 || exists i :: 0 <= i < 8 && ReadHex4(parts[i]).None? then None else Some(GroupValues(parts))
  }

  function GroupValues(parts: seq<string>): (g: Groups)
    requires |parts| == 8 && forall i :: 0 <= i < 8 ==> ReadHex4(parts[i]).Some?
    ensures forall i :: 0 <= i < 8 ==> g[i] == ReadHex4(parts[i]).value
  {
    seq(8, i requires 0 <= i < 8 => ReadHex4(parts[i]).value)
  }

  lemma GroupsRead(g: Groups)
    ensures Word(ShowGroups(g)) && ':' in ShowGroups(g) && ReadGroups(ShowGroups(g)) == Some(g)
  {
    var texts := GroupTexts(g);
    forall i | 0 <= i < 8 ensures ReadHex4(texts[i]) == Some(g[i]) && Word(texts[i]) && ':' !in texts[i] {
      Hex4Reads(g[i]);
    }
    JoinedSplits(texts, ':');
    JoinedWord(texts, ':');
    assert SplitOn(ShowGroups(g), ':') == texts;
    assert GroupValues(texts) == g;
  }

  /** The full form is a text form as the theorems on session descriptions assume one. */
  lemma FullFormInverse()
    ensures Codec(ShowGroups, ReadGroups).Inverse()
  {
    forall g: Groups ensures Word(ShowGroups(g)) && ':' in ShowGroups(g) && ReadGroups(ShowGroups(g)) == Some(g) {
      GroupsRead(g);
    }
  }
}
