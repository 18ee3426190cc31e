/** DNS name anchors in lower-case A-label form (onomancy_dnssec/src/dns_name.rs). */
module DnsNames {
  import opened Wrappers
  import opened Wire
  import opened Text

  const MAX_NAME_LEN: nat := 253
  const MAX_LABEL_LEN: nat := 63

  const DOT: byte := 46
  const HYPHEN: byte := 45

  datatype DnsNameError =
    | Dotless
    | EmptyLabel
    | HyphenAtLabelEdge
    | AllDigitTld
    | LabelTooLong
    | NameTooLong
    | NotALabel

  datatype CanonicalError = NotCanonical | NotUtf8 | NotAName(parse: DnsNameError)

  predicate IsAscii(b: Bytes) {
    forall i | 0 <= i < |b| :: b[i] < 128
  }

  predicate IsDigit(c: byte) {
    48 <= c <= 57
  }

  /** Letters, digits and hyphens, in lower case. */
  predicate IsLdh(c: byte) {
    97 <= c <= 122 || IsDigit(c) || c == HYPHEN
  }

  function LowerByte(c: byte): byte {
    if 65 <= c <= 90 then c + 32 else c
  }

  function Lower(b: Bytes): (r: Bytes)
    ensures |r| == |b|
  {
    seq(|b|, i requires 0 <= i < |b| => LowerByte(b[i]))
  }

  function StripDot(raw: Bytes): Bytes {
    if raw != [] && raw[|raw| - 1] == DOT then raw[..|raw| - 1] else raw
  }

  function ValidateLabel(l: Bytes): Result<(), DnsNameError> {
    if l == [] then Err(EmptyLabel)
    else if |l| > MAX_LABEL_LEN then Err(LabelTooLong)
    else if l[0] == HYPHEN || l[|l| - 1] == HYPHEN then Err(HyphenAtLabelEdge)
    else if exists i | 0 <= i < |l| :: !IsLdh(l[i]) then Err(NotALabel)
    else Ok(())
  }

  function ValidateLabels(labels: seq<Bytes>): Result<(), DnsNameError> {
    if labels == [] then Ok(())
    else
      var _ :- ValidateLabel(labels[0]);
      ValidateLabels(labels[1..])
  }

  predicate AllDigits(l: Bytes) {
    forall i | 0 <= i < |l| :: IsDigit(l[i])
  }

  /** Parse and normalise: the rightmost label is judged first. */
  function ParseName(raw: Bytes): Result<Bytes, DnsNameError> {
    if !IsAscii(raw) then Err(NotALabel)
    else
      var trimmed := StripDot(raw);
      if |trimmed| > MAX_NAME_LEN then Err(NameTooLong)
      else
        var lowered := Lower(trimmed);
        var labels := Split(lowered, DOT);
        var tld := labels[|labels| - 1];
        var _ :- ValidateLabel(tld);
        if AllDigits(tld) then Err(AllDigitTld)
        else
          var _ :- ValidateLabels(labels[..|labels| - 1]);
          if |labels| < 2 then Err(Dotless) else Ok(lowered)
  }

  predicate IsContinuation(c: byte) {
    0x80 <= c <= 0xBF
  }

  /** Octets of the UTF-8 character `b` starts with, or zero if it starts with none. */
  function Utf8Width(b: Bytes): (n: nat)
    requires b != []
    ensures n <= |b|
  {
    var c := b[0];
    if c < 0x80 then 1
    else if 0xC2 <= c <= 0xDF && |b| >= 2 && IsContinuation(b[1]) then 2
    else if 0xE0 <= c <= 0xEF && |b| >= 3 && IsContinuation(b[1]) && IsContinuation(b[2])
            && (c == 0xE0 ==> b[1] >= 0xA0) && (c == 0xED ==> b[1] <= 0x9F) then 3
    else if 0xF0 <= c <= 0xF4 && |b| >= 4 && IsContinuation(b[1]) && IsContinuation(b[2]) && IsContinuation(b[3])
            && (c == 0xF0 ==> b[1] >= 0x90) && (c == 0xF4 ==> b[1] <= 0x8F) then 4
    else 0
  }

  predicate IsUtf8(b: Bytes)
    decreases |b|
  {
    b == [] || (Utf8Width(b) > 0 && IsUtf8(b[Utf8Width(b)..]))
  }

  /** Decode octets that must already be canonical: reject, never normalise. */
  function FromCanonical(raw: Bytes): Result<Bytes, CanonicalError> {
    if !IsUtf8(raw) then Err(NotUtf8)
    else match ParseName(raw)
         case Err(e) => Err(NotAName(e))
         case Ok(name) => if name == raw then Ok(name) else Err(NotCanonical)
  }

  // ----- what the canonical names are -----

  predicate ValidLabel(l: Bytes) {
    ValidateLabel(l).Ok?
  }

  /** A hostname on its own terms: at least two LDH labels, the last not all digits, within the length limits. */
  ghost predicate ValidHostname(name: Bytes) {
    && |name| <= 253
    && var labels := Split(name, DOT);
       |labels| >= 2 && (forall i | 0 <= i < |labels| :: ValidLabel(labels[i])) && !AllDigits(labels[|labels| - 1])
  }

  lemma {:induction false} ValidateLabelsMeans(labels: seq<Bytes>)
    ensures ValidateLabels(labels).Ok? <==> forall i | 0 <= i < |labels| :: ValidLabel(labels[i])
  {
    hide ValidateLabel;
    if labels != [] {
      ValidateLabelsMeans(labels[1..]);
      assert labels == [labels[0]] + labels[1..];
    }
  }

  ghost predicate InSome(c: byte, parts: seq<Bytes>) {
    exists i :: 0 <= i < |parts| && c in parts[i]
  }

  lemma {:induction false} OctetIsInALabel(s: Bytes, c: byte)
    requires c in s && c != DOT
    ensures InSome(c, Split(s, DOT))
  {
    var r, whole := Split(s[1..], DOT), Split(s, DOT);
    if c == s[0] {
      assert c in whole[0];
    } else {
      OctetIsInALabel(s[1..], c);
      var i :| 0 <= i < |r| && c in r[i];
      if s[0] == DOT {
        assert whole[i + 1] == r[i];
      } else if i == 0 {
        assert c in whole[0];
      } else {
        assert whole[i] == r[i];
      }
    }
  }

  lemma {:induction false} TrailingDot(s: Bytes)
    requires s != [] && s[|s| - 1] == DOT
    ensures Split(s, DOT)[|Split(s, DOT)| - 1] == []
  {
    if |s| > 1 {
      TrailingDot(s[1..]);
    } else {
      assert s[1..] == [];
    }
  }

  /** A valid hostname is ASCII, in lower case, and has no trailing dot. */
  lemma HostnameIsNormal(name: Bytes)
    requires ValidHostname(name)
    ensures IsAscii(name) && Lower(name) == name && StripDot(name) == name
  {
    var labels := Split(name, DOT);
    forall i | 0 <= i < |name| ensures name[i] < 128 && LowerByte(name[i]) == name[i] {
      if name[i] != DOT {
        OctetIsInALabel(name, name[i]);
        var k :| 0 <= k < |labels| && name[i] in labels[k];
        assert ValidLabel(labels[k]);
      }
    }
    assert ValidLabel(labels[|labels| - 1]);
    if name != [] && name[|name| - 1] == DOT {
      TrailingDot(name);
    }
  }

  lemma {:induction false} AsciiIsUtf8(b: Bytes)
    requires IsAscii(b)
    ensures IsUtf8(b)
  {
    if b != [] {
      AsciiIsUtf8(b[1..]);
    }
  }

  /** The octets a label may hold. */
  ghost predicate LabelOctet(c: byte) {
    'a' <= c as char <= 'z' || '0' <= c as char <= '9' || c as char == '-'
  }

  ghost predicate HyphenAtEdge(l: Bytes) {
    l != [] && (l[0] as char == '-' || l[|l| - 1] as char == '-')
  }

  /** What makes a label, and which fault is reported of one that is none. */
  lemma LabelExactly(l: Bytes)
    ensures ValidLabel(l) <==>
            1 <= |l| <= 63 && !HyphenAtEdge(l) && forall i | 0 <= i < |l| :: LabelOctet(l[i])
    ensures ValidateLabel(l) == Err(EmptyLabel) <==> l == []
    ensures ValidateLabel(l) == Err(LabelTooLong) <==> |l| > 63
    ensures ValidateLabel(l) == Err(HyphenAtLabelEdge) <==> |l| <= 63 && HyphenAtEdge(l)
    ensures ValidateLabel(l) == Err(NotALabel) <==>
            1 <= |l| <= 63 && !HyphenAtEdge(l) && exists i :: 0 <= i < |l| && !LabelOctet(l[i])
    ensures AllDigits(l) <==> forall i | 0 <= i < |l| :: '0' <= l[i] as char <= '9'
  {
    assert forall c: byte :: IsLdh(c) <==> LabelOctet(c);
  }

  // ----- UTF-8 -----

  /** A Unicode scalar value: a code point that is no surrogate. */
  predicate Scalar(v: nat) {
    v < 0xD800 || 0xE000 <= v < 0x11_0000
  }

  /** The UTF-8 form of a scalar value (section 3 of RFC 3629). */
  function EncodeScalar(v: nat): (b: Bytes)
    requires Scalar(v)
    ensures 1 <= |b| <= 4
  {
    if v < 0x80 then [v as byte]
    else if v < 0x800 then [(0xC0 + v / 64) as byte, (0x80 + v % 64) as byte]
    else if v < 0x1_0000 then [(0xE0 + v / 4096) as byte, (0x80 + v / 64 % 64) as byte, (0x80 + v % 64) as byte]
    else [(0xF0 + v / 262144) as byte, (0x80 + v / 4096 % 64) as byte, (0x80 + v / 64 % 64) as byte,
          (0x80 + v % 64) as byte]
  }

  function EncodeScalars(vs: seq<nat>): Bytes
    requires forall v | v in vs :: Scalar(v)
  {
    if vs == [] then [] else EncodeScalar(vs[0]) + EncodeScalars(vs[1..])
  }

  /** Sextets under a lead octet's bits, cut off one by one. */
  lemma Sextets(v: nat)
    ensures v / 4096 == v / 64 / 64 && v / 262144 == v / 64 / 64 / 64
  {
  }

  lemma ScalarRead(v: nat, tail: Bytes)
    requires Scalar(v)
    ensures Utf8Width(EncodeScalar(v) + tail) == |EncodeScalar(v)|
  {
    var b := EncodeScalar(v) + tail;
    assert b[0] == EncodeScalar(v)[0];
    Sextets(v);
    if 0x80 <= v < 0x800 {
      assert b[1] == EncodeScalar(v)[1];
    } else if 0x800 <= v < 0x1_0000 {
      assert b[1] == EncodeScalar(v)[1] && b[2] == EncodeScalar(v)[2];
    } else if 0x1_0000 <= v {
      assert b[1] == EncodeScalar(v)[1] && b[2] == EncodeScalar(v)[2] && b[3] == EncodeScalar(v)[3];
    }
  }

  lemma TwoOctets(v: nat, high: nat, low: nat)
    requires low < 64 && v == high * 64 + low
    ensures v / 64 == high && v % 64 == low
  {
  }

  /** The scalar value that lead bits and continuation octets stand for. */
  lemma {:induction false} ThreeOctets(lead: nat, x: nat, y: nat) returns (v: nat)
    requires lead < 16 && x < 64 && y < 64
    ensures v == (lead * 64 + x) * 64 + y
    ensures v / 4096 == lead && v / 64 % 64 == x && v % 64 == y
  {
    v := (lead * 64 + x) * 64 + y;
    TwoOctets(lead * 64 + x, lead, x);
    TwoOctets(v, lead * 64 + x, y);
    Sextets(v);
  }

  lemma {:induction false} FourOctets(lead: nat, x: nat, y: nat, z: nat) returns (v: nat)
    requires lead < 8 && x < 64 && y < 64 && z < 64
    ensures v == ((lead * 64 + x) * 64 + y) * 64 + z
    ensures v / 262144 == lead && v / 4096 % 64 == x && v / 64 % 64 == y && v % 64 == z
  {
    v := ((lead * 64 + x) * 64 + y) * 64 + z;
    TwoOctets(lead * 64 + x, lead, x);
    TwoOctets((lead * 64 + x) * 64 + y, lead * 64 + x, y);
    TwoOctets(v, (lead * 64 + x) * 64 + y, z);
    Sextets(v);
  }

  lemma ScalarSpelled(b: Bytes) returns (v: nat)
    requires b != [] && Utf8Width(b) > 0
    ensures Scalar(v) && b[..Utf8Width(b)] == EncodeScalar(v)
  {
    var n := Utf8Width(b);
    if n == 1 {
      v := b[0] as nat;
    } else if n == 2 {
      v := (b[0] as nat - 0xC0) * 64 + (b[1] as nat - 0x80);
      TwoOctets(v, b[0] as nat - 0xC0, b[1] as nat - 0x80);
    } else if n == 3 {
      v := ThreeOctets(b[0] as nat - 0xE0, b[1] as nat - 0x80, b[2] as nat - 0x80);
    } else {
      v := FourOctets(b[0] as nat - 0xF0, b[1] as nat - 0x80, b[2] as nat - 0x80, b[3] as nat - 0x80);
    }
  }

  lemma {:induction false} ScalarsRead(vs: seq<nat>)
    requires forall v | v in vs :: Scalar(v)
    ensures IsUtf8(EncodeScalars(vs))
  {
    hide EncodeScalar, Utf8Width;
    if vs != [] {
      var first, rest := EncodeScalar(vs[0]), EncodeScalars(vs[1..]);
      ScalarRead(vs[0], rest);
      ScalarsRead(vs[1..]);
      assert (first + rest)[|first|..] == rest;
    }
  }

  lemma {:induction false} ScalarsSpelled(b: Bytes) returns (vs: seq<nat>)
    requires IsUtf8(b)
    ensures (forall v | v in vs :: Scalar(v)) && b == EncodeScalars(vs)
    decreases |b|
  {
    hide EncodeScalar, Utf8Width;
    if b == [] {
      vs := [];
    } else {
      var v := ScalarSpelled(b);
      var rest := ScalarsSpelled(b[Utf8Width(b)..]);
      vs := [v] + rest;
      assert vs[1..] == rest && b == b[..Utf8Width(b)] + b[Utf8Width(b)..];
    }
  }

  /** The octets read as UTF-8 exactly when they encode some scalar values. */
  lemma Utf8Exactly(b: Bytes)
    ensures IsUtf8(b) <==> exists vs :: (forall v | v in vs :: Scalar(v)) && b == EncodeScalars(vs)
  {
    hide EncodeScalars, IsUtf8;
    if IsUtf8(b) {
      var vs := ScalarsSpelled(b);
    }
    if vs :| (forall v | v in vs :: Scalar(v)) && b == EncodeScalars(vs) {
      ScalarsRead(vs);
    }
  }

  /** `name` is `raw` without one trailing dot, the letters A to Z lowered and every other octet kept. */
  ghost predicate Normalises(raw: Bytes, name: Bytes) {
    exists trimmed: Bytes ::
      && (raw == trimmed + [46] || (raw == trimmed && (raw == [] || raw[|raw| - 1] != 46)))
      && |name| == |trimmed|
      && forall i | 0 <= i < |name| ::
           name[i] as int == if 65 <= trimmed[i] as int <= 90 then trimmed[i] as int + 32 else trimmed[i] as int
  }

  /** A hostname parsed is its input normalised. */
  lemma ParsedSpelling(raw: Bytes)
    requires ParseName(raw).Ok?
    ensures Normalises(raw, ParseName(raw).value)
  {
    hide ValidateLabel, ValidateLabels, AllDigits, IsAscii, Split;
    var trimmed := StripDot(raw);
    if raw != trimmed {
      assert raw == trimmed + [DOT];
    }
  }

  /** Parsing yields a hostname, and a hostname parses to itself. */
  lemma ParsedNames(raw: Bytes)
    ensures ParseName(raw).Ok? ==> ValidHostname(ParseName(raw).value)
    ensures ValidHostname(raw) ==> ParseName(raw) == Ok(raw)
  {
    hide ValidateLabel, ValidateLabels, Lower, StripDot, AllDigits, IsAscii;
    if ParseName(raw).Ok? {
      var labels := Split(Lower(StripDot(raw)), DOT);
      ValidateLabelsMeans(labels[..|labels| - 1]);
    }
    if ValidHostname(raw) {
      HostnameIsNormal(raw);
      var labels := Split(raw, DOT);
      ValidateLabelsMeans(labels[..|labels| - 1]);
    }
  }

  /** The decoder accepts exactly the hostnames, each as itself: one spelling per name. */
  lemma CanonicalNames(raw: Bytes)
    ensures FromCanonical(raw).Ok? <==> ValidHostname(raw)
    ensures FromCanonical(raw).Ok? ==> FromCanonical(raw).value == raw
  {
    hide ParseName, ValidHostname;
    ParsedNames(raw);
    if ValidHostname(raw) {
      HostnameIsNormal(raw);
      AsciiIsUtf8(raw);
    }
  }

  /** Each refusal of the decoder: no UTF-8, no name, or a name spelled otherwise. */
  lemma DecoderRefusals(raw: Bytes)
    ensures FromCanonical(raw) == Err(NotUtf8) <==> !IsUtf8(raw)
    ensures forall e :: FromCanonical(raw) == Err(NotAName(e)) <==> IsUtf8(raw) && ParseName(raw) == Err(e)
    ensures FromCanonical(raw) == Err(NotCanonical) <==>
            IsUtf8(raw) && ParseName(raw).Ok? && !ValidHostname(raw)
  {
    hide ParseName, ValidHostname, IsUtf8;
    ParsedNames(raw);
  }

  /** The canonical names are exactly what parsing produces. */
  lemma ParsingNormalises(name: Bytes)
    ensures ValidHostname(name) <==> exists raw :: ParseName(raw) == Ok(name)
  {
    hide ParseName, ValidHostname;
    ParsedNames(name);
    if raw :| ParseName(raw) == Ok(name) {
      ParsedNames(raw);
    }
  }

  /** The parse as the source runs it, counting labels as it judges them. */
  method Parse(raw: Bytes) returns (r: Result<Bytes, DnsNameError>)
    ensures r == ParseName(raw)
  {
    if !IsAscii(raw) {
      return Err(NotALabel);
    }
    var trimmed := StripDot(raw);
    if |trimmed| > MAX_NAME_LEN {
      return Err(NameTooLong);
    }
    var lowered := Lower(trimmed);
    var labels := Split(lowered, DOT);
    var tld := labels[|labels| - 1];
    var _ :- ValidateLabel(tld);
    if AllDigits(tld) {
      return Err(AllDigitTld);
    }
    var others := labels[..|labels| - 1];
    var labelCount := 1;
    for i := 0 to |others|
      invariant labelCount == 1 + i
      invariant ValidateLabels(others) == ValidateLabels(others[i..])
    {
      assert others[i..][1..] == others[i + 1..];
      var _ :- ValidateLabel(others[i]);
      labelCount := labelCount + 1;
    }
    if labelCount < 2 {
      return Err(Dotless);
    }
    return Ok(lowered);
  }
}
