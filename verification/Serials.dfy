/** The anti-replay serial (onomancy_dnssec/src/txt/serial.rs): canonical decimal u64. */
module Serials {
  import opened Wrappers
  import opened Wire

  const MAX_SERIAL_DIGITS: nat := 20

  datatype SerialError = Empty | NotADigit(at: nat) | LeadingZero | TooManyDigits(got: nat) | Overflow

  predicate IsDigit(c: char) {
    '0' <= c <= '9'
  }

  predicate AllDigits(s: string) {
    forall i | 0 <= i < |s| :: IsDigit(s[i])
  }

  function DigitChar(v: nat): (c: char)
    requires v < 10
    ensures IsDigit(c) && c as int - '0' as int == v
  {
    ('0' as int + v) as char
  }

  /** The decimal spelling of `n`. */
  function Decimal(n: nat): (s: string)
    ensures s != [] && AllDigits(s)
  {
    if n < 10 then [DigitChar(n)] else Decimal(n / 10) + [DigitChar(n % 10)]
  }

  function DecimalValue(s: string): nat
    requires AllDigits(s)
  {
    if s == [] then 0 else DecimalValue(s[..|s| - 1]) * 10 + (s[|s| - 1] as int - '0' as int)
  }

  function FirstNonDigit(s: string): (at: nat)
    ensures at <= |s|
    ensures at == |s| <==> AllDigits(s)
  {
    if s == [] then 0 else if !IsDigit(s[0]) then 0 else 1 + FirstNonDigit(s[1..])
  }

  function ParseSerial(digits: string): Result<nat, SerialError> {
    if digits == "" then Err(Empty)
    else if FirstNonDigit(digits) < |digits| then Err(NotADigit(FirstNonDigit(digits)))
    else if |digits| > 1 && digits[0] == '0' then Err(LeadingZero)
    else if |digits| > MAX_SERIAL_DIGITS then Err(TooManyDigits(|digits|))
    else if DecimalValue(digits) < U64_LIMIT then Ok(DecimalValue(digits))
    else Err(Overflow)
  }

  // ----- the decimal bijection -----

  ghost predicate NoLeadingZero(s: string) {
    s != "" && AllDigits(s) && (|s| > 1 ==> s[0] != '0')
  }

  lemma {:induction false} DecimalMeans(n: nat)
    ensures NoLeadingZero(Decimal(n)) && DecimalValue(Decimal(n)) == n
    ensures n > 0 ==> Decimal(n)[0] != '0'
  {
    if n >= 10 {
      DecimalMeans(n / 10);
      var s := Decimal(n);
      assert s[..|s| - 1] == Decimal(n / 10);
    }
  }

  lemma {:induction false} DecimalUnique(s: string)
    requires NoLeadingZero(s)
    ensures Decimal(DecimalValue(s)) == s
    ensures |s| > 1 ==> DecimalValue(s) >= 10
  {
    var front, last := s[..|s| - 1], s[|s| - 1] as int - '0' as int;
    assert s == front + [s[|s| - 1]];
    assert DigitChar(last) == s[|s| - 1];
    if |s| > 1 {
      DecimalUnique(front);
      if |front| == 1 {
        assert DecimalValue(front) == front[0] as int - '0' as int by { assert front[..0] == ""; }
      }
      assert (DecimalValue(front) * 10 + last) / 10 == DecimalValue(front);
    } else {
      assert front == "";
    }
  }

  ghost function Power10(n: nat): (p: nat)
    ensures p >= 1
  {
    if n == 0 then 1 else 10 * Power10(n - 1)
  }

  lemma {:induction false} DecimalLength(n: nat, width: nat)
    requires n < Power10(width) && width >= 1
    ensures |Decimal(n)| <= width
  {
    if n >= 10 {
      DecimalLength(n / 10, width - 1);
    }
  }

  /** Twenty digits reach past the largest u64, nineteen do not reach it. */
  lemma TwentyDigits()
    ensures Power10(19) < U64_LIMIT <= Power10(20)
  {
    assert Power10(5) == 100_000 by { assert Power10(2) == 100; assert Power10(4) == 10_000; }
    assert Power10(10) == 100_000_00000 by { assert Power10(7) == 100_000_00; assert Power10(9) == 100_000_0000; }
    assert Power10(15) == 100_000_00000_00000 by {
      assert Power10(12) == 100_000_00000_00;
      assert Power10(14) == 100_000_00000_0000;
    }
    assert Power10(19) == 100_000_00000_00000_0000 by { assert Power10(17) == 100_000_00000_00000_00; }
    assert Power10(20) == 100_000_00000_00000_00000;
  }

  /** Every serial prints to a spelling that parses back to it. */
  lemma SerialRoundTrip(n: nat)
    requires n < U64_LIMIT
    ensures ParseSerial(Decimal(n)) == Ok(n) && |Decimal(n)| <= MAX_SERIAL_DIGITS
  {
    DecimalMeans(n);
    TwentyDigits();
    DecimalLength(n, 20);
  }

  /** The parser accepts exactly the printed serials: one spelling each, up to the overflow boundary. */
  lemma SerialCanonical(s: string)
    ensures ParseSerial(s).Ok? <==> NoLeadingZero(s) && DecimalValue(s) < U64_LIMIT
    ensures ParseSerial(s).Ok? ==> Decimal(ParseSerial(s).value) == s && ParseSerial(s).value < U64_LIMIT
  {
    if NoLeadingZero(s) {
      DecimalUnique(s);
      if DecimalValue(s) < U64_LIMIT {
        SerialRoundTrip(DecimalValue(s));
      }
    }
  }

  /** Each refusal exactly: nothing, a character that is no digit, a leading zero, length, magnitude, in that order. */
  lemma RefusedExactly(s: string, n: nat)
    ensures ParseSerial(s) == Err(Empty) <==> s == ""
    ensures ParseSerial(s) == Err(NotADigit(n)) <==> FirstBad(s, n)
    ensures ParseSerial(s) == Err(LeadingZero) <==> AllDigits(s) && |s| > 1 && s[0] == '0'
    ensures ParseSerial(s) == Err(TooManyDigits(n)) <==> NoLeadingZero(s) && n == |s| > 20
    ensures ParseSerial(s) == Err(Overflow) <==> NoLeadingZero(s) && |s| <= 20 && DecimalValue(s) >= U64_LIMIT
  {
    BadExactly(s, n);
    hide DecimalValue, FirstNonDigit, FirstBad, AllDigits;
  }

  lemma BadExactly(s: string, n: nat)
    ensures FirstBad(s, n) <==> n == FirstNonDigit(s) < |s|
    ensures AllDigits(s) <==> FirstNonDigit(s) == |s|
  {
    hide FirstNonDigit;
    FirstNonDigitMeans(s);
  }

  ghost predicate FirstBad(s: string, at: nat) {
    at < |s| && !('0' <= s[at] <= '9') && forall i | 0 <= i < at :: '0' <= s[i] <= '9'
  }

  lemma {:induction false} FirstNonDigitMeans(s: string)
    ensures var at := FirstNonDigit(s);
            (at < |s| ==> !IsDigit(s[at])) && forall i | 0 <= i < at :: IsDigit(s[i])
  {
    if s != [] {
      FirstNonDigitMeans(s[1..]);
    }
  }

  /** Within twenty digits the only failure left is magnitude, and it starts exactly at 2^64. */
  lemma OverflowBoundary(n: nat)
    requires n < Power10(20)
    ensures ParseSerial(Decimal(n)) == if n < U64_LIMIT then Ok(n) else Err(Overflow)
  {
    DecimalMeans(n);
    DecimalLength(n, 20);
  }

  // ----- minting -----

  /** The publisher's rule `max(now, last + 1)`; nothing follows the largest u64. */
  function Next(last: Option<nat>, nowMs: nat): (r: Option<nat>)
    requires nowMs < U64_LIMIT && (last.Some? ==> last.value < U64_LIMIT)
  {
    match last
    case None => Some(nowMs)
    case Some(l) =>
      if l + 1 >= U64_LIMIT then None
      else Some(if nowMs > l + 1 then nowMs else l + 1)
  }
}
