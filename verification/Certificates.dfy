/**
 The certificate unit: a signed binding and its attached, unsigned evidence
 (onomancy_dnssec/src/certificate.rs).
 */
module Certificates {
  import opened Wrappers
  import opened Wire
  import opened Ordering
  import opened DnsNames
  import opened EntryLists
  import opened SignedUnits
  import opened Statements
  import opened Bindings

  /** The least a lineage entry can occupy: a one-octet length and the smallest rotation unit. */
  const MIN_LINEAGE_ENTRY: nat := 1 + (4 + 96 + 64 + 1)

  /** What follows the signature, in wire order. */
  datatype Attached = Attached(delegation: seq<Bytes>, lineage: seq<Statement<Rotation>>, chain: seq<Bytes>)

  datatype Certificate = Certificate(digest: Bytes, signed: Signed<Binding>, attached: Attached)

  // ----- lineage -----

  ghost predicate ValidLineage(s: Suite, lineage: seq<Statement<Rotation>>) {
    forall u | u in lineage :: ValidStatement(s, RotationKind(s), RotationOk(s), u)
  }

  function Units(s: Suite, lineage: seq<Statement<Rotation>>): (units: seq<Bytes>)
    ensures |units| == |lineage|
  {
    if lineage == [] then []
    else [EncodeStatement(s, RotationKind(s), lineage[0])] + Units(s, lineage[1..])
  }

  function WriteLineage(s: Suite, lineage: seq<Statement<Rotation>>): Bytes {
    WriteList(s.varint, Units(s, lineage))
  }

  function ReadStatements(s: Suite, b: Bytes, count: nat, index: nat): UnitRead<seq<Statement<Rotation>>>
    decreases count
  {
    if count == 0 then Ok(([], b))
    else
      var (unit, rest) :- Lift(ReadEntry(s.varint, b));
      match DecodeStatement(s, RotationKind(s), unit)
      case Err(e) => Err(BadLineage(index, e))
      case Ok(u) =>
        var (more, after) :- ReadStatements(s, rest, count - 1, index + 1);
        Ok(([u] + more, after))
  }

  function ReadLineage(s: Suite, b: Bytes): UnitRead<seq<Statement<Rotation>>> {
    var (count, rest) :- Lift(ReadLength(s.varint, b, MIN_LINEAGE_ENTRY));
    ReadStatements(s, rest, count, 0)
  }

  lemma UnitsCons(s: Suite, u: Statement<Rotation>, lineage: seq<Statement<Rotation>>)
    ensures Units(s, [u] + lineage) == [EncodeStatement(s, RotationKind(s), u)] + Units(s, lineage)
  {
    assert ([u] + lineage)[1..] == lineage;
  }

  /** Every entry of a real lineage occupies at least the minimum the count check assumes. */
  lemma {:induction false} LineageFloor(s: Suite, lineage: seq<Statement<Rotation>>)
    requires ValidLineage(s, lineage)
    ensures |WriteEntries(s.varint, Units(s, lineage))| >= 166 * |lineage| == MIN_LINEAGE_ENTRY * |lineage|
  {
    hide EncodeStatement, ValidStatement;
    if lineage != [] {
      var u := lineage[0];
      RotationUnitFloor(s, u);
      CappedUnit(s, u);
      VarintPrefix(s.varint, |EncodeStatement(s, RotationKind(s), u)|, []);
      assert lineage == [u] + lineage[1..];
      UnitsCons(s, u, lineage[1..]);
      WriteEntriesCons(s.varint, Units(s, lineage), []);
      LineageFloor(s, lineage[1..]);
    }
  }

  lemma CappedUnit(s: Suite, u: Statement<Rotation>)
    requires ValidStatement(s, RotationKind(s), RotationOk(s), u)
    ensures |EncodeStatement(s, RotationKind(s), u)| <= MAX_UNIT_BYTES
  {
  }

  lemma {:induction false} StatementsPrefix(s: Suite, lineage: seq<Statement<Rotation>>, tail: Bytes, index: nat)
    requires ValidLineage(s, lineage)
    ensures ReadStatements(s, WriteEntries(s.varint, Units(s, lineage)) + tail, |lineage|, index) == Ok((lineage, tail))
    decreases |lineage|
  {
    hide EncodeStatement, DecodeStatement, ValidStatement, ReadEntry;
    if lineage == [] {
      assert [] + tail == tail;
    } else {
      var u := lineage[0];
      assert lineage == [u] + lineage[1..];
      UnitsCons(s, u, lineage[1..]);
      var units := Units(s, lineage);
      WriteEntriesCons(s.varint, units, tail);
      assert units[1..] == Units(s, lineage[1..]);
      CappedUnit(s, u);
      EntryPrefix(s.varint, units[0], WriteEntries(s.varint, units[1..]) + tail);
      RotationLaws(s);
      StatementRoundTrip(s, RotationKind(s), RotationOk(s), u);
      StatementsPrefix(s, lineage[1..], tail, index + 1);
    }
  }

  lemma {:induction false} StatementsCanonical(s: Suite, b: Bytes, count: nat, index: nat)
    requires ReadStatements(s, b, count, index).Ok?
    ensures var (lineage, rest) := ReadStatements(s, b, count, index).value;
            |lineage| == count && ValidLineage(s, lineage) && b == WriteEntries(s.varint, Units(s, lineage)) + rest
    decreases count
  {
    hide EncodeStatement, DecodeStatement, ValidStatement, ReadEntry;
    if count == 0 {
      assert [] + b == b;
    } else {
      EntryCanonical(s.varint, b);
      var (unit, rest) := ReadEntry(s.varint, b).value;
      RotationLaws(s);
      StatementCanonical(s, RotationKind(s), RotationOk(s), unit);
      var u := DecodeStatement(s, RotationKind(s), unit).value;
      StatementsCanonical(s, rest, count - 1, index + 1);
      var (more, after) := ReadStatements(s, rest, count - 1, index + 1).value;
      UnitsCons(s, u, more);
      var units := [unit] + Units(s, more);
      WriteEntriesCons(s.varint, units, after);
      assert units[1..] == Units(s, more);
    }
  }

  /** A lineage reads back, so in particular the 166-octet count check never refuses a real one. */
  lemma LineagePrefix(s: Suite, lineage: seq<Statement<Rotation>>, tail: Bytes)
    requires ValidLineage(s, lineage) && |lineage| < U64_LIMIT
    ensures ReadLineage(s, WriteLineage(s, lineage) + tail) == Ok((lineage, tail))
  {
    hide ReadStatements, WriteEntries, ValidLineage;
    var entries := WriteEntries(s.varint, Units(s, lineage));
    LineageFloor(s, lineage);
    StatementsPrefix(s, lineage, tail, 0);
    Assoc(s.varint.encode(|lineage|), entries, tail);
    LengthPrefix(s.varint, |lineage|, entries + tail, MIN_LINEAGE_ENTRY);
  }

  lemma LineageCanonical(s: Suite, b: Bytes)
    requires ReadLineage(s, b).Ok?
    ensures var (lineage, rest) := ReadLineage(s, b).value;
            ValidLineage(s, lineage) && |lineage| < U64_LIMIT && b == WriteLineage(s, lineage) + rest
  {
    hide ReadStatements, WriteEntries, ValidLineage;
    var (count, b1) := ReadLength(s.varint, b, MIN_LINEAGE_ENTRY).value;
    StatementsCanonical(s, b1, count, 0);
    var (lineage, rest) := ReadStatements(s, b1, count, 0).value;
    Assoc(s.varint.encode(|lineage|), WriteEntries(s.varint, Units(s, lineage)), rest);
  }

  // ----- the attached region -----

  ghost predicate ValidAttached(s: Suite, a: Attached) {
    && Countable(a.delegation)
    && ValidLineage(s, a.lineage) && |a.lineage| < U64_LIMIT
    && Countable(a.chain)
  }

  function WriteAttached(s: Suite, a: Attached): Bytes {
    WriteList(s.varint, a.delegation) + (WriteLineage(s, a.lineage) + WriteList(s.varint, a.chain))
  }

  function ReadAttached(s: Suite, b: Bytes): UnitRead<Attached> {
    var (delegation, b1) :- Lift(ReadList(s.varint, b));
    var (lineage, b2) :- ReadLineage(s, b1);
    var (chain, rest) :- Lift(ReadList(s.varint, b2));
    Ok((Attached(delegation, lineage, chain), rest))
  }

  lemma AttachedPrefix(s: Suite, a: Attached)
    requires ValidAttached(s, a)
    ensures ReadAttached(s, WriteAttached(s, a)) == Ok((a, []))
  {
    hide ReadList, WriteList, ReadLineage, WriteLineage, ValidLineage, Countable;
    var b2 := WriteList(s.varint, a.chain);
    ListPrefix(s.varint, a.delegation, WriteLineage(s, a.lineage) + b2);
    LineagePrefix(s, a.lineage, b2);
    ListPrefix(s.varint, a.chain, []);
    assert b2 + [] == b2;
  }

  lemma AttachedCanonical(s: Suite, b: Bytes)
    requires ReadAttached(s, b).Ok?
    ensures var (a, rest) := ReadAttached(s, b).value; ValidAttached(s, a) && b == WriteAttached(s, a) + rest
  {
    hide ReadList, WriteList, ReadLineage, WriteLineage, ValidLineage, Countable;
    ListCanonical(s.varint, b);
    var (delegation, b1) := ReadList(s.varint, b).value;
    LineageCanonical(s, b1);
    var (lineage, b2) := ReadLineage(s, b1).value;
    ListCanonical(s.varint, b2);
    var (chain, rest) := ReadList(s.varint, b2).value;
    assert b == WriteAttached(s, Attached(delegation, lineage, chain)) + rest;
  }

  // ----- the unit -----

  function EncodeCertificate(s: Suite, c: Certificate): Bytes {
    EncodeSigned(BindingKind(s), c.signed) + WriteAttached(s, c.attached)
  }

  function DecodeCertificate(s: Suite, b: Bytes): Result<Certificate, UnitError> {
    if |b| > MAX_UNIT_BYTES then Err(BadWire(OversizeUnit(|b|)))
    else
      var (signed, b1) :- DecodeSigned(s, BindingKind(s), b);
      var (attached, rest) :- ReadAttached(s, b1);
      if rest == [] then Ok(Certificate(s.hash(b), signed, attached))
      else Err(BadWire(TrailingBytes(|rest|)))
  }

  /** What every certificate in circulation is: validly signed, within the cap, digested over its own bytes. */
  ghost predicate ValidCertificate(s: Suite, c: Certificate) {
    && ValidSigned(s, BindingKind(s), BindingOk(s), c.signed)
    && ValidAttached(s, c.attached)
    && |EncodeCertificate(s, c)| <= MAX_UNIT_BYTES
    && c.digest == s.hash(EncodeCertificate(s, c))
  }

  lemma CertificateRoundTrip(s: Suite, c: Certificate)
    requires ValidCertificate(s, c)
    ensures DecodeCertificate(s, EncodeCertificate(s, c)) == Ok(c)
  {
    hide ValidSigned, DecodeSigned, EncodeSigned, WriteAttached, ReadAttached, ValidAttached, LawfulKind;
    BindingLaws(s);
    SignedPrefix(s, BindingKind(s), BindingOk(s), c.signed, WriteAttached(s, c.attached));
    AttachedPrefix(s, c.attached);
  }

  lemma CertificateCanonical(s: Suite, b: Bytes)
    requires DecodeCertificate(s, b).Ok?
    ensures var c := DecodeCertificate(s, b).value; ValidCertificate(s, c) && EncodeCertificate(s, c) == b
  {
    hide ValidSigned, DecodeSigned, EncodeSigned, WriteAttached, ReadAttached, ValidAttached, LawfulKind;
    BindingLaws(s);
    SignedCanonical(s, BindingKind(s), BindingOk(s), b);
    var (signed, b1) := DecodeSigned(s, BindingKind(s), b).value;
    AttachedCanonical(s, b1);
    var a := ReadAttached(s, b1).value.0;
    assert WriteAttached(s, a) + [] == WriteAttached(s, a);
  }

  /** Certificates and the byte strings that decode are in bijection. */
  lemma CertificateBijection(s: Suite, b: Bytes, c: Certificate)
    ensures DecodeCertificate(s, b) == Ok(c) <==> ValidCertificate(s, c) && b == EncodeCertificate(s, c)
  {
    hide DecodeCertificate, EncodeCertificate, ValidCertificate;
    if DecodeCertificate(s, b) == Ok(c) {
      CertificateCanonical(s, b);
    }
    if ValidCertificate(s, c) {
      CertificateRoundTrip(s, c);
    }
  }

  /** The octets begin with three letters and a zero. */
  ghost predicate TaggedAs(b: Bytes, letters: string) {
    |b| >= 4 && |letters| == 3 && (forall i | 0 <= i < 3 :: b[i] as int == letters[i] as int) && b[3] == 0
  }

  lemma {:induction false} BeginsWithTag<P>(s: Suite, k: PayloadKind<P>, b: Bytes, letters: string)
    requires TaggedAs(k.tag, letters) && |k.tag| == 4
    ensures DecodeSigned(s, k, b).Ok? ==> TaggedAs(b, letters)
  {
    if DecodeSigned(s, k, b).Ok? {
      assert b[..4] == k.tag;
      assert forall i | 0 <= i < 4 :: b[i] == k.tag[i];
    }
  }

  /** Each kind of unit begins with its own letters. */
  lemma UnitsBegin(s: Suite, b: Bytes)
    ensures DecodeCertificate(s, b).Ok? ==> TaggedAs(b, "ONC")
    ensures DecodeStatement(s, RotationKind(s), b).Ok? ==> TaggedAs(b, "ONR")
    ensures DecodeStatement(s, SuccessionKind(s), b).Ok? ==> TaggedAs(b, "ONS")
  {
    assert TaggedAs(BINDING_TAG, "ONC") && TaggedAs(ROTATION_TAG, "ONR") && TaggedAs(SUCCESSION_TAG, "ONS");
    hide DecodeSigned, TaggedAs;
    BeginsWithTag(s, BindingKind(s), b, "ONC");
    BeginsWithTag(s, RotationKind(s), b, "ONR");
    BeginsWithTag(s, SuccessionKind(s), b, "ONS");
  }

  /** No octets are units of two kinds: rotations, successions and certificates never stand in for one another. */
  lemma KindsAreDisjoint(s: Suite, b: Bytes)
    ensures DecodeStatement(s, RotationKind(s), b).Ok? ==> DecodeStatement(s, SuccessionKind(s), b).Err?
    ensures DecodeCertificate(s, b).Ok? ==>
              DecodeStatement(s, RotationKind(s), b).Err? && DecodeStatement(s, SuccessionKind(s), b).Err?
  {
    hide DecodeSigned;
    TagsSeparate(s, RotationKind(s), SuccessionKind(s), b);
    TagsSeparate(s, BindingKind(s), RotationKind(s), b);
    TagsSeparate(s, BindingKind(s), SuccessionKind(s), b);
  }

  // ----- the same certificate with different evidence -----

  /**
   Two decodable byte strings carry the same certificate exactly when the second begins with
   the first's signed region and signature: nothing after the signature can change it.
   */
  lemma SameCertificate(s: Suite, b: Bytes, other: Bytes)
    requires DecodeCertificate(s, b).Ok? && DecodeCertificate(s, other).Ok?
    ensures DecodeCertificate(s, b).value.signed == DecodeCertificate(s, other).value.signed <==>
            EncodeSigned(BindingKind(s), DecodeCertificate(s, b).value.signed) <= other
  {
    hide EncodeSigned, DecodeSigned, ValidSigned, LawfulKind, ValidAttached, ReadAttached, WriteAttached;
    CertificateCanonical(s, b);
    CertificateCanonical(s, other);
    var signed := DecodeCertificate(s, b).value.signed;
    if EncodeSigned(BindingKind(s), signed) <= other {
      BindingLaws(s);
      SelfDelimiting(s, BindingKind(s), BindingOk(s), signed, other);
    }
  }

  /** Replace the attached region, leaving the signed part alone. */
  function WithAttachments(s: Suite, c: Certificate, attached: Attached): Result<Certificate, UnitError> {
    var refreshed := c.(attached := attached);
    var bytes := EncodeCertificate(s, refreshed);
    if |bytes| > MAX_UNIT_BYTES then Err(BadWire(OversizeUnit(|bytes|)))
    else Ok(refreshed.(digest := s.hash(bytes)))
  }

  lemma UnitsAreEntries(s: Suite, a: Attached)
    requires ValidLineage(s, a.lineage) && |WriteAttached(s, a)| <= MAX_UNIT_BYTES
    ensures ValidAttached(s, a)
  {
    hide WriteList, ValidLineage, Countable;
    SmallListIsCountable(s.varint, a.delegation);
    SmallListIsCountable(s.varint, a.chain);
    SmallListIsCountable(s.varint, Units(s, a.lineage));
    FewUnits(Units(s, a.lineage));
  }

  lemma FewUnits(units: seq<Bytes>)
    requires Countable(units)
    ensures |units| < U64_LIMIT
  {
  }

  /** A validly signed part and any valid lineage make a valid certificate, refused only for its size. */
  lemma AssembledIsValid(s: Suite, c: Certificate)
    requires ValidSigned(s, BindingKind(s), BindingOk(s), c.signed) && ValidLineage(s, c.attached.lineage)
    requires |EncodeCertificate(s, c)| <= MAX_UNIT_BYTES && c.digest == s.hash(EncodeCertificate(s, c))
    ensures ValidCertificate(s, c)
  {
    hide ValidSigned, EncodeSigned, WriteAttached, ValidLineage;
    UnitsAreEntries(s, c.attached);
  }

  /**
   Refreshing a certificate keeps the certificate and carries exactly the new evidence:
   the refreshed bytes decode to the same signed part with the new attachments.
   */
  lemma RefreshKeepsTheCertificate(s: Suite, c: Certificate, attached: Attached)
    requires ValidCertificate(s, c) && ValidLineage(s, attached.lineage)
    ensures WithAttachments(s, c, attached).Ok? <==>
            |EncodeSigned(BindingKind(s), c.signed)| + |WriteAttached(s, attached)| <= MAX_UNIT_BYTES
    ensures WithAttachments(s, c, attached).Ok? ==>
              var renewed := WithAttachments(s, c, attached).value;
              && ValidCertificate(s, renewed) && renewed.signed == c.signed && renewed.attached == attached
              && DecodeCertificate(s, EncodeCertificate(s, renewed)) == Ok(renewed)
  {
    hide ValidSigned, EncodeSigned, WriteAttached, ValidLineage, DecodeCertificate;
    if WithAttachments(s, c, attached).Ok? {
      var renewed := WithAttachments(s, c, attached).value;
      AssembledIsValid(s, renewed);
      CertificateRoundTrip(s, renewed);
    }
  }

  // ----- minting -----

  datatype Params = Params(
    rootDoc: Bytes,
    issuedAt: nat,
    hostname: Bytes,
    heads: seq<Bytes>,
    predecessor: Option<Statement<Succession>>,
    attached: Attached)

  /** What the types of the parameters guarantee. */
  ghost predicate ValidParams(s: Suite, p: Params) {
    && IsKey(s, p.rootDoc) && p.issuedAt < U64_LIMIT && ValidHostname(p.hostname)
    && (forall h | h in p.heads :: |h| == HEAD_LEN)
    && ValidPredecessor(s, p.predecessor) && ValidLineage(s, p.attached.lineage)
  }

  /** The signed payload: heads sorted and deduplicated, for both signing routes. */
  function MakeBinding(p: Params, signer: Bytes): Binding {
    Binding(p.rootDoc, signer, p.issuedAt, p.hostname, SortDistinct(BytesLess, p.heads), p.predecessor)
  }

  function SignableBytes(s: Suite, p: Params, signer: Bytes): Bytes {
    Region(BindingKind(s), MakeBinding(p, signer))
  }

  /** A certificate from parameters and a signature over their octets. */
  function FromPartsCertificate(s: Suite, p: Params, signer: Bytes, signature: Bytes): Result<Certificate, UnitError> {
    var signed :- FromParts(s, BindingKind(s), MakeBinding(p, signer), signature);
    var c := Certificate([], signed, p.attached);
    var bytes := EncodeCertificate(s, c);
    if |bytes| > MAX_UNIT_BYTES then Err(BadWire(OversizeUnit(|bytes|)))
    else Ok(c.(digest := s.hash(bytes)))
  }

  lemma {:induction false} WriteHeadsLength(heads: seq<Bytes>)
    requires forall h | h in heads :: |h| == HEAD_LEN
    ensures |WriteHeads(heads)| == HEAD_LEN * |heads|
  {
    if heads != [] {
      WriteHeadsLength(heads[1..]);
    }
  }

  /** The binding both routes sign is one every decoder accepts, if it fits a unit at all. */
  lemma BindingIsValid(s: Suite, p: Params, signer: Bytes)
    requires ValidParams(s, p) && IsKey(s, signer)
    requires |SignableBytes(s, p, signer)| <= MAX_UNIT_BYTES
    ensures ValidBinding(s, MakeBinding(p, signer))
  {
    hide BytesLess, ValidHostname, WriteHostname, WritePredecessor, ValidPredecessor, ValidLineage, WriteHeads,
         StrictTotal;
    var heads := SortDistinct(BytesLess, p.heads);
    BytesOrder();
    SortDistinctSorted(BytesLess, p.heads);
    WriteHeadsLength(heads);
  }

  /** Assembly refuses a signature that does not verify, then a unit over the cap, and nothing else. */
  lemma {:induction false} AssemblyIsExact(s: Suite, p: Params, signer: Bytes, signature: Bytes)
    requires ValidParams(s, p) && IsKey(s, signer) && |signature| == SIGNATURE_LEN
    ensures var r := FromPartsCertificate(s, p, signer, signature);
            var len := |SignableBytes(s, p, signer)| + SIGNATURE_LEN + |WriteAttached(s, p.attached)|;
            && (r == Err(InvalidSignature) <==> !s.verify(signer, SignableBytes(s, p, signer), signature))
            && (r.Err? && r != Err(InvalidSignature) <==>
                s.verify(signer, SignableBytes(s, p, signer), signature) && len > MAX_UNIT_BYTES)
            && (r.Ok? ==> ValidCertificate(s, r.value) && r.value.attached == p.attached
                          && r.value.signed == Signed(MakeBinding(p, signer), signature))
  {
    hide ValidBinding, IsKey, EncodeBinding, WriteAttached, ValidLineage;
    var r := FromPartsCertificate(s, p, signer, signature);
    if r.Ok? {
      BindingIsValid(s, p, signer);
      AssembledIsValid(s, r.value);
    }
  }

  /** Sign in process: only the size can refuse. */
  function SignCertificate(s: Suite, p: Params, secret: Bytes): Result<Certificate, UnitError> {
    var binding := MakeBinding(p, s.publicKey(secret));
    var signed :- Sign(s, BindingKind(s), binding, secret);
    var c := Certificate([], signed, p.attached);
    var bytes := EncodeCertificate(s, c);
    if |bytes| > MAX_UNIT_BYTES then Err(BadWire(OversizeUnit(|bytes|)))
    else Ok(c.(digest := s.hash(bytes)))
  }

  /**
   A certificate assembled from an outside signature over the offered bytes is the one signing
   in process gives, and only its size can refuse it.
   */
  lemma SigningRoutesAgree(s: Suite, p: Params, secret: Bytes)
    requires ValidParams(s, p)
    ensures var signer := s.publicKey(secret);
            var signature := s.sign(secret, SignableBytes(s, p, signer));
            var r := SignCertificate(s, p, secret);
            && r == FromPartsCertificate(s, p, signer, signature)
            && r != Err(InvalidSignature)
            && (r.Ok? ==> ValidCertificate(s, r.value) && DecodeCertificate(s, EncodeCertificate(s, r.value)) == r
                          && Region(BindingKind(s), r.value.signed.payload) == SignableBytes(s, p, signer))
  {
    hide DecodeCertificate, EncodeCertificate, ValidCertificate, ValidParams, EncodeBinding;
    var signer := s.publicKey(secret);
    assert IsKey(s, signer);
    SigningSucceeds(s, BindingKind(s), MakeBinding(p, signer), secret);
    AssemblyIsExact(s, p, signer, s.sign(secret, SignableBytes(s, p, signer)));
    if SignCertificate(s, p, secret).Ok? {
      CertificateRoundTrip(s, SignCertificate(s, p, secret).value);
    }
  }

  /**
   The bytes to be signed pin every signed parameter, and the heads only as a set: two
   requests sign the same bytes exactly when they say the same thing.
   */
  lemma {:induction false} SignableBytesSayOneThing(s: Suite, p: Params, signer: Bytes, q: Params, other: Bytes)
    requires ValidParams(s, p) && IsKey(s, signer) && |SignableBytes(s, p, signer)| <= MAX_UNIT_BYTES
    requires ValidParams(s, q) && IsKey(s, other) && |SignableBytes(s, q, other)| <= MAX_UNIT_BYTES
    ensures SignableBytes(s, p, signer) == SignableBytes(s, q, other) <==>
            && signer == other && p.rootDoc == q.rootDoc && p.issuedAt == q.issuedAt && p.hostname == q.hostname
            && p.predecessor == q.predecessor && (forall h :: h in p.heads <==> h in q.heads)
  {
    hide EncodeBinding, DecodeBinding, BytesLess, StrictTotal, ValidParams, ValidBinding, IsKey;
    BytesOrder();
    SortDistinctBySet(BytesLess, p.heads, q.heads);
    if SignableBytes(s, p, signer) == SignableBytes(s, q, other) {
      var a, b := MakeBinding(p, signer), MakeBinding(q, other);
      BindingIsValid(s, p, signer);
      BindingIsValid(s, q, other);
      BindingPrefix(s, a, []);
      BindingPrefix(s, b, []);
      assert (BINDING_TAG + EncodeBinding(s, a))[TAG_LEN..] == EncodeBinding(s, a);
      assert (BINDING_TAG + EncodeBinding(s, b))[TAG_LEN..] == EncodeBinding(s, b);
    }
  }

  // ----- over a buffer and a cursor -----

  /** Finish a partly read lineage. */
  ghost function Resume(done: seq<Statement<Rotation>>,
                        r: UnitRead<seq<Statement<Rotation>>>): UnitRead<seq<Statement<Rotation>>> {
    match r
    case Ok((more, rest)) => Ok((done + more, rest))
    case Err(e) => Err(e)
  }

  lemma {:induction false} ReadStatementsStep(s: Suite, b: Bytes, count: nat, index: nat,
                                              done: seq<Statement<Rotation>>)
    requires count > 0
    ensures Resume(done, ReadStatements(s, b, count, index)) ==
            match ReadEntry(s.varint, b)
            case Err(e) => Err(BadWire(e))
            case Ok((unit, rest)) =>
              match DecodeStatement(s, RotationKind(s), unit)
              case Err(e) => Err(BadLineage(index, e))
              case Ok(u) => Resume(done + [u], ReadStatements(s, rest, count - 1, index + 1))
  {
    hide ReadEntry, DecodeStatement;
    if ReadEntry(s.varint, b).Ok? {
      var (unit, rest) := ReadEntry(s.varint, b).value;
      if DecodeStatement(s, RotationKind(s), unit).Ok? && ReadStatements(s, rest, count - 1, index + 1).Ok? {
        var u := DecodeStatement(s, RotationKind(s), unit).value;
        var more := ReadStatements(s, rest, count - 1, index + 1).value.0;
        assert done + ([u] + more) == done + [u] + more;
      }
    }
  }

  lemma {:induction false} ReadStatementsEnds(s: Suite, b: Bytes, index: nat, r: UnitRead<seq<Statement<Rotation>>>,
                                              done: seq<Statement<Rotation>>)
    ensures Resume([], r) == r
    ensures Resume(done, ReadStatements(s, b, 0, index)) == Ok((done, b))
  {
    if r.Ok? {
      assert [] + r.value.0 == r.value.0;
    }
    assert done + [] == done;
  }

  method TakeLineage(reader: Reader, s: Suite) returns (r: Result<seq<Statement<Rotation>>, UnitError>)
    requires reader.Valid()
    modifies reader`pos
    ensures reader.Valid()
    ensures Agrees(ReadLineage(s, old(reader.Rest())), r, reader.Rest())
  {
    hide ReadEntry, DecodeStatement, ReadStatements, Resume;
    var len := reader.BoundedLen(s.varint, MIN_LINEAGE_ENTRY);
    if len.Err? {
      return Err(BadWire(len.error));
    }
    var count := len.value;
    var lineage: seq<Statement<Rotation>> := [];
    ghost var all := ReadStatements(s, reader.Rest(), count, 0);
    ReadStatementsEnds(s, [], 0, all, []);
    for index := 0 to count
      invariant reader.Valid()
      invariant Resume(lineage, ReadStatements(s, reader.Rest(), count - index, index)) == all
    {
      ReadStatementsStep(s, reader.Rest(), count - index, index, lineage);
      var unit := TakeEntry(reader, s.varint);
      if unit.Err? {
        return Err(BadWire(unit.error));
      }
      var statement := DecodeRotationUnit(s, unit.value);
      if statement.Err? {
        return Err(BadLineage(index, statement.error));
      }
      lineage := lineage + [statement.value];
    }
    ReadStatementsEnds(s, reader.Rest(), count, all, lineage);
    return Ok(lineage);
  }

  method TakeAttached(reader: Reader, s: Suite) returns (r: Result<Attached, UnitError>)
    requires reader.Valid()
    modifies reader`pos
    ensures reader.Valid()
    ensures Agrees(ReadAttached(s, old(reader.Rest())), r, reader.Rest())
  {
    hide ReadList, ReadLineage;
    var delegation :- TakeCarriage(reader, s);
    var lineage :- TakeLineage(reader, s);
    var chain :- TakeCarriage(reader, s);
    return Ok(Attached(delegation, lineage, chain));
  }

  method DecodeCertificateUnit(s: Suite, b: Bytes) returns (r: Result<Certificate, UnitError>)
    ensures r == DecodeCertificate(s, b)
  {
    hide ReadTag, ReadSignature, ReadAttached, DecodeBinding, Consumed;
    var reader :- StartUnit(b);
    var _ :- TakeTag(reader, BINDING_TAG);
    var binding :- DecodeBindingFields(reader, s);
    var signature :- TakeSignature(reader, s, binding.signer);
    var attached :- TakeAttached(reader, s);
    var _ :- FinishUnit(reader);
    return Ok(Certificate(s.hash(b), Signed(binding, signature), attached));
  }

  lemma {:induction false} UnitsSnoc(s: Suite, lineage: seq<Statement<Rotation>>, u: Statement<Rotation>)
    ensures Units(s, lineage + [u]) == Units(s, lineage) + [EncodeStatement(s, RotationKind(s), u)]
  {
    hide EncodeStatement;
    if lineage == [] {
      assert lineage + [u] == [u];
    } else {
      assert (lineage + [u])[1..] == lineage[1..] + [u];
      UnitsSnoc(s, lineage[1..], u);
    }
  }

  method PutLineage(buf: Buffer, s: Suite, lineage: seq<Statement<Rotation>>)
    modifies buf
    ensures buf.bytes == old(buf.bytes) + WriteLineage(s, lineage)
  {
    hide WriteEntries, EncodeStatement, Units;
    buf.PutVarint(s.varint, |lineage|);
    ghost var start := buf.bytes;
    NoUnits(s);
    assert start + [] == start;
    for i := 0 to |lineage|
      invariant buf.bytes == start + WriteEntries(s.varint, Units(s, lineage[..i]))
    {
      var unit := EncodeRotationUnit(s, lineage[i]);
      assert lineage[..i] + [lineage[i]] == lineage[..i + 1];
      UnitsSnoc(s, lineage[..i], lineage[i]);
      ghost var units := Units(s, lineage[..i]);
      WriteEntriesSnoc(s.varint, units, unit);
      buf.PutVarint(s.varint, |unit|);
      buf.Extend(unit);
      Assoc(start, WriteEntries(s.varint, units), s.varint.encode(|unit|));
      Assoc(start, WriteEntries(s.varint, units) + s.varint.encode(|unit|), unit);
      Assoc(WriteEntries(s.varint, units), s.varint.encode(|unit|), unit);
    }
    assert lineage[..|lineage|] == lineage;
    Assoc(old(buf.bytes), s.varint.encode(|lineage|), WriteEntries(s.varint, Units(s, lineage)));
  }

  lemma NoUnits(s: Suite)
    ensures WriteEntries(s.varint, Units(s, [])) == []
  {
  }

  method PutSignedBinding(buf: Buffer, s: Suite, signed: Signed<Binding>)
    modifies buf
    ensures buf.bytes == old(buf.bytes) + EncodeSigned(BindingKind(s), signed)
  {
    hide EncodeBinding;
    buf.Extend(BINDING_TAG);
    EncodeBindingFields(buf, s, signed.payload);
    buf.Extend(signed.signature);
    ghost var fields := EncodeBinding(s, signed.payload);
    Assoc(old(buf.bytes), BINDING_TAG, fields);
    Assoc(old(buf.bytes), BINDING_TAG + fields, signed.signature);
  }

  method PutAttached(buf: Buffer, s: Suite, attached: Attached)
    modifies buf
    ensures buf.bytes == old(buf.bytes) + WriteAttached(s, attached)
  {
    hide WriteList, WriteLineage;
    EncodeList(buf, s.varint, attached.delegation);
    PutLineage(buf, s, attached.lineage);
    EncodeList(buf, s.varint, attached.chain);
    ghost var delegation, lineage := WriteList(s.varint, attached.delegation), WriteLineage(s, attached.lineage);
    Assoc(old(buf.bytes) + delegation, lineage, WriteList(s.varint, attached.chain));
    Assoc(old(buf.bytes), delegation, lineage + WriteList(s.varint, attached.chain));
  }

  method EncodeCertificateUnit(s: Suite, signed: Signed<Binding>, attached: Attached) returns (b: Bytes)
    ensures b == EncodeSigned(BindingKind(s), signed) + WriteAttached(s, attached)
  {
    hide EncodeSigned, WriteAttached;
    var buf := new Buffer();
    PutSignedBinding(buf, s, signed);
    assert [] + EncodeSigned(BindingKind(s), signed) == EncodeSigned(BindingKind(s), signed);
    PutAttached(buf, s, attached);
    b := buf.bytes;
  }

  method FromPartsUnit(s: Suite, p: Params, signer: Bytes, signature: Bytes) returns (r: Result<Certificate, UnitError>)
    ensures r == FromPartsCertificate(s, p, signer, signature)
  {
    hide EncodeSigned, WriteAttached, SortDistinct;
    var signed :- FromParts(s, BindingKind(s), MakeBinding(p, signer), signature);
    var bytes := EncodeCertificateUnit(s, signed, p.attached);
    if |bytes| > MAX_UNIT_BYTES {
      return Err(BadWire(OversizeUnit(|bytes|)));
    }
    return Ok(Certificate(s.hash(bytes), signed, p.attached));
  }

  method Refresh(s: Suite, c: Certificate, attached: Attached) returns (r: Result<Certificate, UnitError>)
    ensures r == WithAttachments(s, c, attached)
  {
    hide EncodeSigned, WriteAttached;
    var bytes := EncodeCertificateUnit(s, c.signed, attached);
    if |bytes| > MAX_UNIT_BYTES {
      return Err(BadWire(OversizeUnit(|bytes|)));
    }
    return Ok(Certificate(s.hash(bytes), c.signed, attached));
  }
}
