/** Standard padded base64, strict about padding and trailing bits. */
module Base64 {
  import opened Wrappers
  import opened Wire

  function SextetChar(v: nat): char
    requires v < 64
  {
    if v < 26 then ('A' as int + v) as char
    else if v < 52 then ('a' as int + (v - 26)) as char
    else if v < 62 then ('0' as int + (v - 52)) as char
    else if v == 62 then '+'
    else '/'
  }

  function CharSextet(c: char): (v: Option<nat>)
    ensures v.Some? ==> v.value < 64
  {
    if 'A' <= c <= 'Z' then Some(c as int - 'A' as int)
    else if 'a' <= c <= 'z' then Some(c as int - 'a' as int + 26)
    else if '0' <= c <= '9' then Some(c as int - '0' as int + 52)
    else if c == '+' then Some(62)
    else if c == '/' then Some(63)
    else None
  }

  lemma SextetBijection(v: nat)
    requires v < 64
    ensures CharSextet(SextetChar(v)) == Some(v) && SextetChar(v) != '='
  {
  }

  lemma CharBijection(c: char)
    requires CharSextet(c).Some?
    ensures SextetChar(CharSextet(c).value) == c && c != '='
  {
  }

  /** Up to three octets as four characters, `=` standing for the sextets they do not fill. */
  function EncodeGroup(b: Bytes): (s: string)
    requires 1 <= |b| <= 3
    ensures |s| == 4
  {
    var x := b[0] as nat;
    var y := if |b| > 1 then b[1] as nat else 0;
    var z := if |b| > 2 then b[2] as nat else 0;
    [SextetChar(x / 4),
     SextetChar(x % 4 * 16 + y / 16),
     if |b| > 1 then SextetChar(y % 16 * 4 + z / 64) else '=',
     if |b| > 2 then SextetChar(z % 64) else '=']
  }

  function Encode(b: Bytes): (s: string)
    ensures |s| == (|b| + 2) / 3 * 4
  {
    if b == [] then ""
    else if |b| <= 3 then EncodeGroup(b)
    else EncodeGroup(b[..3]) + Encode(b[3..])
  }

  /** The octets of one group; padding only in a last group, and bits it drops must be zero. */
  function DecodeGroup(s: string, last: bool): (b: Option<Bytes>)
    requires |s| == 4
    ensures b.Some? ==> 1 <= |b.value| <= 3
  {
    match (CharSextet(s[0]), CharSextet(s[1]))
    case (Some(p), Some(q)) =>
      if s[3] == '=' && last then
        if s[2] == '=' then
          if q % 16 == 0 then Some([(p * 4 + q / 16) as byte]) else None
        else match CharSextet(s[2])
             case None => None
             case Some(r) =>
               if r % 4 == 0 then Some([(p * 4 + q / 16) as byte, (q % 16 * 16 + r / 4) as byte]) else None
      else
        (match (CharSextet(s[2]), CharSextet(s[3]))
         case (Some(r), Some(t)) =>
           Some([(p * 4 + q / 16) as byte, (q % 16 * 16 + r / 4) as byte, (r % 4 * 64 + t) as byte])
         case _ => None)
    case _ => None
  }

  function Decode(s: string): Option<Bytes> {
    if s == "" then Some([])
    else if |s| < 4 then None
    else
      match (DecodeGroup(s[..4], |s| == 4), Decode(s[4..]))
      case (Some(b), Some(rest)) => Some(b + rest)
      case _ => None
  }

  /** Three octets cut into four sextets and put together again. */
  lemma OctetsFromSextets(x: nat, y: nat, z: nat)
    requires x < 256 && y < 256 && z < 256
    ensures var (p, q, r, t) := (x / 4, x % 4 * 16 + y / 16, y % 16 * 4 + z / 64, z % 64);
            && p < 64 && q < 64 && r < 64 && t < 64
            && p * 4 + q / 16 == x && q % 16 * 16 + r / 4 == y && r % 4 * 64 + t == z
            && (y == 0 ==> q % 16 == 0) && (z == 0 ==> r % 4 == 0)
  {
  }

  /** Four sextets packed into three octets and cut out again. */
  lemma {:induction false} SextetsFromOctets(p: nat, q: nat, r: nat, t: nat)
    requires p < 64 && q < 64 && r < 64 && t < 64
    ensures var (x, y, z) := (p * 4 + q / 16, q % 16 * 16 + r / 4, r % 4 * 64 + t);
            && x < 256 && y < 256 && z < 256
            && x / 4 == p && x % 4 * 16 + y / 16 == q && y % 16 * 4 + z / 64 == r && z % 64 == t
            && (q % 16 == 0 ==> x % 4 * 16 == q) && (r % 4 == 0 ==> y % 16 * 4 == r)
  {
  }

  lemma GroupRoundTrip(b: Bytes, last: bool)
    requires 1 <= |b| <= 3 && (last || |b| == 3)
    ensures DecodeGroup(EncodeGroup(b), last) == Some(b)
  {
    hide CharSextet, SextetChar;
    var x := b[0] as nat;
    var y := if |b| > 1 then b[1] as nat else 0;
    var z := if |b| > 2 then b[2] as nat else 0;
    OctetsFromSextets(x, y, z);
    SextetBijection(x / 4);
    SextetBijection(x % 4 * 16 + y / 16);
    SextetBijection(y % 16 * 4 + z / 64);
    SextetBijection(z % 64);
    assert |b| == 1 ==> b == [b[0]];
    assert |b| == 2 ==> b == [b[0], b[1]];
    assert |b| == 3 ==> b == [b[0], b[1], b[2]];
  }

  lemma GroupCanonical(s: string, last: bool)
    requires |s| == 4 && DecodeGroup(s, last).Some?
    ensures var b := DecodeGroup(s, last).value; EncodeGroup(b) == s && (last || |b| == 3)
  {
    hide CharSextet, SextetChar;
    assert s == [s[0], s[1], s[2], s[3]];
    CharBijection(s[0]);
    CharBijection(s[1]);
    var p, q := CharSextet(s[0]).value, CharSextet(s[1]).value;
    if s[3] == '=' && last {
      if s[2] == '=' {
        SextetsFromOctets(p, q, 0, 0);
      } else {
        CharBijection(s[2]);
        SextetsFromOctets(p, q, CharSextet(s[2]).value, 0);
      }
    } else {
      CharBijection(s[2]);
      CharBijection(s[3]);
      SextetsFromOctets(p, q, CharSextet(s[2]).value, CharSextet(s[3]).value);
    }
  }

  /** Encoding then decoding is the identity on octet strings. */
  lemma {:induction false} RoundTrip(b: Bytes)
    ensures Decode(Encode(b)) == Some(b)
  {
    if b == [] {
    } else if |b| <= 3 {
      GroupRoundTrip(b, true);
      assert Encode(b)[..4] == EncodeGroup(b) && Encode(b)[4..] == "";
      assert b + [] == b;
    } else {
      var s := Encode(b);
      GroupRoundTrip(b[..3], false);
      RoundTrip(b[3..]);
      assert s[..4] == EncodeGroup(b[..3]) && s[4..] == Encode(b[3..]);
      assert b == b[..3] + b[3..];
    }
  }

  /** Whatever decodes is the one spelling of its octets. */
  lemma {:induction false} Unique(s: string)
    requires Decode(s).Some?
    ensures Encode(Decode(s).value) == s
  {
    if s != "" {
      Unique(s[4..]);
      GroupCanonical(s[..4], |s| == 4);
      var b, rest := DecodeGroup(s[..4], |s| == 4).value, Decode(s[4..]).value;
      assert s == s[..4] + s[4..];
      if |s| == 4 {
        assert rest == [] && b + rest == b;
      } else {
        assert rest != [] by { assert Encode(rest) == s[4..]; }
        assert (b + rest)[..3] == b && (b + rest)[3..] == rest;
      }
    }
  }

  // ----- the bits each character stands for (section 4 of RFC 4648) -----

  ghost function PowerOfTwo(n: nat): (p: nat)
    ensures p >= 1
  {
    if n == 0 then 1 else 2 * PowerOfTwo(n - 1)
  }

  ghost function OctetOrZero(b: Bytes, i: nat): (v: nat)
    ensures v < 256
  {
    if i < |b| then b[i] as nat else 0
  }

  /** The six bits of `b` from bit `k` on, the first bit highest and those past the end zero. */
  ghost function SixBits(b: Bytes, k: nat): (v: nat)
    requires k % 2 == 0
    ensures v < 64
  {
    (OctetOrZero(b, k / 8) * 256 + OctetOrZero(b, k / 8 + 1)) / PowerOfTwo(10 - k % 8) % 64
  }

  lemma Powers()
    ensures PowerOfTwo(4) == 16 && PowerOfTwo(6) == 64 && PowerOfTwo(8) == 256 && PowerOfTwo(10) == 1024
  {
    assert PowerOfTwo(2) == 4;
    assert PowerOfTwo(4) == 16;
    assert PowerOfTwo(6) == 64;
    assert PowerOfTwo(8) == 256;
  }

  lemma HighSextet(high: nat, low: nat, next: nat)
    requires high < 64 && low < 4 && next < 256
    ensures ((high * 4 + low) * 256 + next) / 1024 % 64 == high
  {
    var v := (high * 4 + low) * 256 + next;
    assert v == 1024 * high + (low * 256 + next) && low * 256 + next < 1024;
  }

  lemma MiddleSextet(high: nat, middle: nat, low: nat)
    requires middle < 64 && low < 16
    ensures (high * 1024 + middle * 16 + low) / 16 % 64 == middle
  {
    assert (high * 1024 + middle * 16 + low) / 16 == high * 64 + middle;
  }

  lemma LowerSextet(high: nat, middle: nat, low: nat)
    requires middle < 64 && low < 64
    ensures (high * 4096 + middle * 64 + low) / 64 % 64 == middle
  {
    assert (high * 4096 + middle * 64 + low) / 64 == high * 64 + middle;
  }

  lemma FourSextets(x: nat, y: nat, z: nat)
    requires x < 256 && y < 256 && z < 256
    ensures (x * 256 + y) / 1024 % 64 == x / 4
    ensures (x * 256 + y) / 16 % 64 == x % 4 * 16 + y / 16
    ensures (y * 256 + z) / 64 % 64 == y % 16 * 4 + z / 64
    ensures (z * 256) / 256 % 64 == z % 64
  {
    HighSextet(x / 4, x % 4, y);
    MiddleSextet(x / 4, x % 4 * 16 + y / 16, y % 16);
    LowerSextet(y / 16, y % 16 * 4 + z / 64, z % 64);
  }

  lemma Windows(b: Bytes)
    ensures var (x, y, z) := (OctetOrZero(b, 0), OctetOrZero(b, 1), OctetOrZero(b, 2));
            && SixBits(b, 0) == x / 4
            && SixBits(b, 6) == x % 4 * 16 + y / 16
            && SixBits(b, 12) == y % 16 * 4 + z / 64
            && SixBits(b, 18) == z % 64
  {
    hide OctetOrZero;
    var x, y, z, w := OctetOrZero(b, 0), OctetOrZero(b, 1), OctetOrZero(b, 2), OctetOrZero(b, 3);
    Powers();
    FourSextets(x, y, z);
    assert (z * 256 + w) / 256 == z;
  }

  lemma GroupBits(b: Bytes, rest: Bytes, i: nat)
    requires 1 <= |b| <= 3 && (|b| == 3 || rest == []) && i < 4
    ensures EncodeGroup(b)[i] == if i <= |b| then SextetChar(SixBits(b + rest, 6 * i)) else '='
  {
    hide SextetChar, SixBits;
    Windows(b + rest);
  }

  lemma BitsBehind(b: Bytes, k: nat)
    requires |b| > 3 && k % 2 == 0
    ensures SixBits(b, k + 24) == SixBits(b[3..], k)
  {
    hide PowerOfTwo;
    var at := k / 8;
    assert (k + 24) / 8 == at + 3 && (k + 24) % 8 == k % 8;
    assert OctetOrZero(b, at + 3) == OctetOrZero(b[3..], at);
    assert OctetOrZero(b, at + 4) == OctetOrZero(b[3..], at + 1);
  }

  /**
   Each character of an encoding stands for the next six bits of the octets, and `=` fills the last
   four characters where no bit is left.
   */
  lemma {:induction false} EncodesTheBits(b: Bytes, i: nat)
    requires i < |Encode(b)|
    ensures Encode(b)[i] == if 6 * i < 8 * |b| then SextetChar(SixBits(b, 6 * i)) else '='
  {
    hide SixBits, EncodeGroup;
    if |b| <= 3 {
      assert b == b + [];
      GroupBits(b, [], i);
    } else {
      var head, rest := b[..3], b[3..];
      assert b == head + rest && Encode(b) == EncodeGroup(head) + Encode(rest);
      if i < 4 {
        GroupBits(head, rest, i);
      } else {
        EncodesTheBits(rest, i - 4);
        BitsBehind(b, 6 * (i - 4));
      }
    }
  }
}
