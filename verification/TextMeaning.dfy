/** What the text helpers of the SDP code accept, exactly. */
module TextMeaning {
  import opened Prelude
  import opened Text

  // ---- Splitting ----

  lemma {:induction false} JoinInverse(s: string, c: char)
    ensures Join(SplitOn(s, c), [c]) == s
  {
    if s != [] {
      JoinInverse(s[1..], c);
      var rest := SplitOn(s[1..], c);
      assert s == [s[0]] + s[1..];
      if s[0] == c {
        assert ([[]] + rest)[1..] == rest;
      } else {
        assert ([[s[0]] + rest[0]] + rest[1..])[1..] == rest[1..];
      }
    }
  }

  /** The parts are the texts without the separator that make up the whole when joined with it. */
  lemma SplitExactly(s: string, c: char, parts: seq<string>)
    ensures SplitOn(s, c) == parts <==>
            parts != [] && (forall i :: 0 <= i < |parts| ==> c !in parts[i]) && Join(parts, [c]) == s
  {
    JoinInverse(s, c);
    PartsLack(s, c);
    if parts != [] && (forall i :: 0 <= i < |parts| ==> c !in parts[i]) && Join(parts, [c]) == s {
      JoinedSplits(parts, c);
    }
  }

  /** The first `c` stands right behind `before`. */
  lemma {:induction false} SplitOnceExactly(s: string, c: char, before: string, after: string)
    ensures SplitOnce(s, c) == Some((before, after)) <==> c !in before && s == before + [c] + after
    ensures SplitOnce(s, c).None? <==> c !in s
  {
    if s != [] && s[0] != c {
      assert s == [s[0]] + s[1..];
      if before != [] {
        SplitOnceExactly(s[1..], c, before[1..], after);
        assert before == [before[0]] + before[1..];
        if s == before + [c] + after {
          assert s[1..] == before[1..] + [c] + after;
        }
      } else {
        SplitOnceExactly(s[1..], c, before, after);
      }
    } else if s != [] {
      assert s == [c] + s[1..];
      if c !in before && s == before + [c] + after {
        assert before == [];
        assert s[1..] == after;
      }
    }
  }

  predicate NoWhite(s: string) { forall i :: 0 <= i < |s| ==> !White(s[i]) }

  predicate AllWhite(s: string) { forall i :: 0 <= i < |s| ==> White(s[i]) }

  /** The first white space stands right behind `before`. */
  lemma SplitOnceWhiteExactly(s: string, before: string, after: string)
    ensures SplitOnceWhite(s) == Some((before, after)) <==>
            NoWhite(before) && exists c :: White(c) && s == before + [c] + after
    ensures SplitOnceWhite(s).None? <==> NoWhite(s)
  {
    var n := WordLength(s);
    if n < |s| {
      assert s == s[..n] + [s[n]] + s[n + 1..];
    }
    if c :| NoWhite(before) && White(c) && s == before + [c] + after {
      WordLengthOf(before, [c] + after);
      assert s == before + ([c] + after);
      assert s[..|before|] == before && s[|before| + 1..] == after;
    }
  }

  // ---- Trimming ----

  predicate Trimmed(s: string) { s == [] || (!White(s[0]) && !White(s[|s| - 1])) }

  lemma {:induction false} TrimStartParts(s: string)
    ensures var k := |s| - |TrimStart(s)|;
            0 <= k && s[k..] == TrimStart(s) && AllWhite(s[..k]) && (k < |s| ==> !White(s[k]))
  {
    if s != [] && White(s[0]) {
      TrimStartParts(s[1..]);
      var k := |s| - |TrimStart(s)|;
      assert s[1..][k - 1..] == s[k..];
      forall i | 0 <= i < k ensures White(s[..k][i]) {
        assert i > 0 ==> s[1..][..k - 1][i - 1] == s[i];
      }
    }
  }

  lemma {:induction false} TrimEndParts(s: string)
    ensures var k := |TrimEnd(s)|;
            k <= |s| && s[..k] == TrimEnd(s) && AllWhite(s[k..]) && (k > 0 ==> !White(s[k - 1]))
  {
    if s != [] && White(s[|s| - 1]) {
      var front := s[..|s| - 1];
      TrimEndParts(front);
      var k := |TrimEnd(s)|;
      assert front[..k] == s[..k];
      forall i | 0 <= i < |s| - k ensures White(s[k..][i]) {
        assert i < |s| - 1 - k ==> front[k..][i] == s[k..][i];
      }
    }
  }

  ghost predicate Padded(s: string, t: string) {
    Trimmed(t) && exists low, high :: 0 <= low <= high <= |s| && PaddedAt(s, t, low, high)
  }

  predicate PaddedAt(s: string, t: string, low: nat, high: nat)
    requires low <= high <= |s|
  {
    AllWhite(s[..low]) && s[low..high] == t && AllWhite(s[high..])
  }

  /** Trimming takes the white space away at both ends and nothing else. */
  lemma TrimPads(s: string)
    ensures Padded(s, Trim(s))
  {
    TrimStartParts(s);
    TrimEndParts(TrimStart(s));
    var rest := TrimStart(s);
    var low := |s| - |rest|;
    var high := low + |Trim(s)|;
    assert s[low..high] == rest[..high - low] && s[high..] == rest[high - low..];
    assert PaddedAt(s, Trim(s), low, high);
  }

  // ---- Numbers ----

  function Zeros(count: nat): (s: string)
    ensures |s| == count && forall i :: 0 <= i < count ==> s[i] == '0'
  {
    seq(count, i => '0')
  }

  /** An optional plus sign, leading zeros, and the decimal digits. */
  ghost predicate Numeral(s: string, n: nat) { exists zeros: nat, plus: bool :: NumeralWith(s, n, zeros, plus) }

  predicate NumeralWith(s: string, n: nat, zeros: nat, plus: bool) {
    s == (if plus then "+" else "") + Zeros(zeros) + Decimal(n)
  }

  lemma {:induction false} ZerosAddNothing(zeros: nat, s: string)
    requires AllDigits(s)
    ensures AllDigits(Zeros(zeros) + s) && Value(Zeros(zeros) + s) == Value(s)
    decreases |s| + zeros
  {
    var padded := Zeros(zeros) + s;
    if s != [] {
      ZerosAddNothing(zeros, s[..|s| - 1]);
      assert padded[..|padded| - 1] == Zeros(zeros) + s[..|s| - 1];
    } else if zeros > 0 {
      ZerosAddNothing(zeros - 1, s);
      assert padded[..|padded| - 1] == Zeros(zeros - 1) + s;
    }
  }

  lemma LastOfTen(n: nat, d: nat)
    requires d < 10
    ensures (n * 10 + d) / 10 == n && (n * 10 + d) % 10 == d
  {
  }

  /** Digits are the decimal form of their value behind some zeros. */
  lemma {:induction false} DigitsAreDecimal(s: string) returns (zeros: nat)
    requires s != [] && AllDigits(s)
    ensures s == Zeros(zeros) + Decimal(Value(s))
  {
    var front, d := s[..|s| - 1], (s[|s| - 1] - '0') as nat;
    assert s == front + [DigitChar(d)];
    if front == [] {
      zeros := 0;
      assert Value(front) == 0;
    } else {
      zeros := DigitsAreDecimal(front);
      var n := Value(front);
      LastOfTen(n, d);
      if n == 0 {
        zeros := zeros + 1;
        assert Decimal(0) == "0";
        assert front == Zeros(zeros);
      } else {
        assert Decimal(Value(s)) == Decimal(n) + [DigitChar(d)];
      }
    }
  }

  lemma NumeralDigits(zeros: nat, n: nat)
    ensures var digits := Zeros(zeros) + Decimal(n);
            digits != [] && AllDigits(digits) && Value(digits) == n
  {
    ZerosAddNothing(zeros, Decimal(n));
    DecimalValue(n);
  }

  lemma NumeralReads(s: string, max: nat, n: nat, zeros: nat, plus: bool)
    requires n <= max && NumeralWith(s, n, zeros, plus)
    ensures ParseUint(s, max) == Some(n)
  {
    var digits := Zeros(zeros) + Decimal(n);
    NumeralDigits(zeros, n);
    assert Digit(digits[0]);
    assert s == (if plus then "+" else "") + digits;
    assert (if s != [] && s[0] == '+' then s[1..] else s) == digits;
  }

  /** Exactly the numerals of the numbers in range are numbers. */
  lemma NumberExactly(s: string, max: nat, n: nat)
    ensures ParseUint(s, max) == Some(n) <==> n <= max && Numeral(s, n)
  {
    if ParseUint(s, max) == Some(n) {
      var plus := s[0] == '+';
      var digits := if plus then s[1..] else s;
      var zeros := DigitsAreDecimal(digits);
      assert s == (if plus then "+" else "") + digits;
      assert NumeralWith(s, n, zeros, plus);
    }
    if zeros: nat, plus: bool :| n <= max && NumeralWith(s, n, zeros, plus) {
      NumeralReads(s, max, n, zeros, plus);
    }
  }

  // ---- Dotted quads ----

  lemma ShortDecimal(s: string)
    requires s != [] && AllDigits(s) && (|s| > 1 ==> s[0] != '0')
    ensures s == Decimal(Value(s))
  {
    var zeros := DigitsAreDecimal(s);
    assert s[0] == (Zeros(zeros) + Decimal(Value(s)))[0];
    assert Zeros(0) == "";
  }

  lemma OctetExactly(s: string, b: Octet)
    ensures ParseOctet(s) == Some(b) <==> s == Decimal(b)
  {
    OctetRoundTrip(b);
    if ParseOctet(s) == Some(b) {
      ShortDecimal(s);
    }
  }

  /** Exactly the dotted form of an IPv4 address is one. */
  lemma DottedQuadExactly(s: string, ip: Ip, v6: Codec)
    requires ip.V4?
    ensures ParseV4(s) == Some(ip) <==> s == PrintIp(ip, v6)
  {
    V4RoundTrip(ip, v6);
    if ParseV4(s) == Some(ip) {
      var parts := SplitOn(s, '.');
      JoinInverse(s, '.');
      OctetExactly(parts[0], ip.a);
      OctetExactly(parts[1], ip.b);
      OctetExactly(parts[2], ip.c);
      OctetExactly(parts[3], ip.d);
      assert parts == [Decimal(ip.a), Decimal(ip.b), Decimal(ip.c), Decimal(ip.d)];
    }
  }
}
