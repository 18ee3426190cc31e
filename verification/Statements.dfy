/**
 The two statement units: a signed payload followed by its authority carriage
 (onomancy_dnssec/src/statement/rotation.rs and successor.rs).
 */
module Statements {
  import opened Wrappers
  import opened Wire
  import opened DnsNames
  import opened EntryLists
  import opened SignedUnits

  /** A decoded unit, with the digest of its bytes. */
  datatype Statement<P> = Statement(digest: Bytes, signed: Signed<P>, authority: seq<Bytes>)

  function EncodeStatement<P>(s: Suite, k: PayloadKind<P>, u: Statement<P>): Bytes {
    EncodeSigned(k, u.signed) + WriteList(s.varint, u.authority)
  }

  function DecodeStatement<P>(s: Suite, k: PayloadKind<P>, b: Bytes): Result<Statement<P>, UnitError> {
    if |b| > MAX_UNIT_BYTES then Err(BadWire(OversizeUnit(|b|)))
    else
      var (signed, b1) :- DecodeSigned(s, k, b);
      var (authority, rest) :- Lift(ReadList(s.varint, b1));
      if rest == [] then Ok(Statement(s.hash(b), signed, authority))
      else Err(BadWire(TrailingBytes(|rest|)))
  }

  /** Complete a signed payload into a unit, refused if no decoder would take it. */
  function Complete<P>(s: Suite, k: PayloadKind<P>, signed: Signed<P>, authority: seq<Bytes>): Result<Statement<P>,
                       UnitError> {
    var bytes := EncodeSigned(k, signed) + WriteList(s.varint, authority);
    if |bytes| > MAX_UNIT_BYTES then Err(BadWire(OversizeUnit(|bytes|)))
    else Ok(Statement(s.hash(bytes), signed, authority))
  }

  /** What every statement in circulation is: validly signed, within the cap, digested over its own bytes. */
  ghost predicate ValidStatement<P>(s: Suite, k: PayloadKind<P>, ok: P -> bool, u: Statement<P>) {
    && ValidSigned(s, k, ok, u.signed)
    && Countable(u.authority)
    && |EncodeStatement(s, k, u)| <= MAX_UNIT_BYTES
    && u.digest == s.hash(EncodeStatement(s, k, u))
  }

  lemma {:induction false} StatementRoundTrip<P(!new)>(s: Suite, k: PayloadKind<P>, ok: P -> bool, u: Statement<P>)
    requires LawfulKind(k, ok) && ValidStatement(s, k, ok, u)
    ensures DecodeStatement(s, k, EncodeStatement(s, k, u)) == Ok(u)
  {
    hide LawfulKind, ValidSigned, DecodeSigned, EncodeSigned, WriteList, ReadList, Countable;
    var authority := WriteList(s.varint, u.authority);
    SignedPrefix(s, k, ok, u.signed, authority);
    ListPrefix(s.varint, u.authority, []);
    assert authority + [] == authority;
  }

  lemma {:induction false} StatementCanonical<P(!new)>(s: Suite, k: PayloadKind<P>, ok: P -> bool, b: Bytes)
    requires LawfulKind(k, ok) && DecodeStatement(s, k, b).Ok?
    ensures ValidStatement(s, k, ok, DecodeStatement(s, k, b).value)
    ensures EncodeStatement(s, k, DecodeStatement(s, k, b).value) == b
  {
    hide LawfulKind, ValidSigned, DecodeSigned, EncodeSigned, WriteList, ReadList, Countable;
    var u := DecodeStatement(s, k, b).value;
    SignedCanonical(s, k, ok, b);
    var (signed, b1) := DecodeSigned(s, k, b).value;
    ListCanonical(s.varint, b1);
    assert b1 == WriteList(s.varint, u.authority) + [] == WriteList(s.varint, u.authority);
  }

  /** Statement units and the bytes that decode are in bijection, one payload kind at a time. */
  lemma {:induction false} StatementBijection<P(!new)>(s: Suite, k: PayloadKind<P>, ok: P -> bool, b: Bytes,
                                                       u: Statement<P>)
    requires LawfulKind(k, ok)
    ensures DecodeStatement(s, k, b) == Ok(u) <==> ValidStatement(s, k, ok, u) && b == EncodeStatement(s, k, u)
  {
    hide LawfulKind, DecodeStatement, ValidStatement, EncodeStatement;
    if DecodeStatement(s, k, b) == Ok(u) {
      StatementCanonical(s, k, ok, b);
    }
    if ValidStatement(s, k, ok, u) {
      StatementRoundTrip(s, k, ok, u);
    }
  }

  /** Completing a validly signed payload gives a valid statement, or refuses exactly the oversize ones. */
  lemma {:induction false} CompleteIsValid<P(!new)>(s: Suite, k: PayloadKind<P>, ok: P -> bool, signed: Signed<P>,
                                                    authority: seq<Bytes>)
    requires ValidSigned(s, k, ok, signed)
    ensures Complete(s, k, signed, authority).Ok? <==>
            |EncodeSigned(k, signed)| + |WriteList(s.varint, authority)| <= MAX_UNIT_BYTES
    ensures Complete(s, k, signed, authority).Err? ==>
              var len := |EncodeSigned(k, signed)| + |WriteList(s.varint, authority)|;
              Complete(s, k, signed, authority).error == BadWire(OversizeUnit(len))
    ensures Complete(s, k, signed, authority).Ok? ==>
              var u := Complete(s, k, signed, authority).value;
              ValidStatement(s, k, ok, u) && u.signed == signed && u.authority == authority
  {
    hide ValidSigned, EncodeSigned;
    SmallListIsCountable(s.varint, authority);
  }

  // ----- rotation statements -----

  /** `replaced` is retired in favour of `successor`, which signs. */
  datatype Rotation = Rotation(rootDoc: Bytes, replaced: Bytes, successor: Bytes)

  const ROTATION_TAG: Bytes := [0x4f, 0x4e, 0x52, 0]

  predicate ValidRotation(s: Suite, r: Rotation) {
    IsKey(s, r.rootDoc) && IsKey(s, r.replaced) && IsKey(s, r.successor)
  }

  function EncodeRotation(r: Rotation): Bytes {
    r.rootDoc + (r.replaced + r.successor)
  }

  function DecodeRotation(s: Suite, b: Bytes): UnitRead<Rotation> {
    var (rootDoc, b1) :- ReadKey(s, 1, b);
    var (replaced, b2) :- ReadKey(s, 2, b1);
    var (successor, rest) :- ReadKey(s, 3, b2);
    Ok((Rotation(rootDoc, replaced, successor), rest))
  }

  function RotationKind(s: Suite): PayloadKind<Rotation> {
    PayloadKind(ROTATION_TAG, EncodeRotation, (b: Bytes) => DecodeRotation(s, b), (r: Rotation) => r.successor)
  }

  ghost function RotationOk(s: Suite): Rotation -> bool {
    (r: Rotation) => ValidRotation(s, r)
  }

  lemma RotationPrefix(s: Suite, r: Rotation, tail: Bytes)
    requires ValidRotation(s, r)
    ensures DecodeRotation(s, EncodeRotation(r) + tail) == Ok((r, tail))
  {
    hide ReadKey;
    var b2 := r.successor + tail;
    var b1 := r.replaced + b2;
    assert EncodeRotation(r) + tail == r.rootDoc + b1;
    KeyPrefix(s, 1, r.rootDoc, b1);
    KeyPrefix(s, 2, r.replaced, b2);
    KeyPrefix(s, 3, r.successor, tail);
  }

  lemma RotationCanonical(s: Suite, b: Bytes)
    requires DecodeRotation(s, b).Ok?
    ensures var (r, rest) := DecodeRotation(s, b).value; ValidRotation(s, r) && b == EncodeRotation(r) + rest
  {
    hide ReadKey;
    KeyCanonical(s, 1, b);
    var (rootDoc, b1) := ReadKey(s, 1, b).value;
    KeyCanonical(s, 2, b1);
    var (replaced, b2) := ReadKey(s, 2, b1).value;
    KeyCanonical(s, 3, b2);
    var (successor, rest) := ReadKey(s, 3, b2).value;
    assert b == EncodeRotation(Rotation(rootDoc, replaced, successor)) + rest;
  }

  lemma RotationLaws(s: Suite)
    ensures LawfulKind(RotationKind(s), RotationOk(s))
  {
    hide EncodeRotation, DecodeRotation, ValidRotation;
    var k, ok := RotationKind(s), RotationOk(s);
    forall r: Rotation, tail: Bytes | ok(r)
      ensures k.decode(k.encode(r) + tail) == Ok((r, tail))
    {
      RotationPrefix(s, r, tail);
    }
    forall b: Bytes | k.decode(b).Ok?
      ensures var (r, rest) := k.decode(b).value; ok(r) && b == k.encode(r) + rest
    {
      RotationCanonical(s, b);
    }
  }

  /** The smallest rotation unit: tag, three keys, signature, and the count of an empty carriage. */
  lemma RotationUnitFloor(s: Suite, u: Statement<Rotation>)
    requires ValidStatement(s, RotationKind(s), RotationOk(s), u)
    ensures |EncodeStatement(s, RotationKind(s), u)| >= 4 + 96 + 64 + 1
  {
    hide WriteList;
    ListPrefix(s.varint, u.authority, []);
    assert |EncodeRotation(u.signed.payload)| == 96;
  }

  // ----- succession statements -----

  /** `predecessorDoc` names `successorDoc` as its continuation under `hostname`. */
  datatype Succession = Succession(predecessorDoc: Bytes, successorDoc: Bytes, signer: Bytes, hostname: Bytes)

  const SUCCESSION_TAG: Bytes := [0x4f, 0x4e, 0x53, 0]

  ghost predicate ValidSuccession(s: Suite, r: Succession) {
    IsKey(s, r.predecessorDoc) && IsKey(s, r.successorDoc) && IsKey(s, r.signer) && ValidHostname(r.hostname)
  }

  function EncodeSuccession(s: Suite, r: Succession): Bytes {
    r.predecessorDoc + (r.successorDoc + (r.signer + WriteHostname(s, r.hostname)))
  }

  function DecodeSuccession(s: Suite, b: Bytes): UnitRead<Succession> {
    var (predecessorDoc, b1) :- ReadKey(s, 1, b);
    var (successorDoc, b2) :- ReadKey(s, 2, b1);
    var (signer, b3) :- ReadKey(s, 3, b2);
    var (hostname, rest) :- ReadHostname(s, b3);
    Ok((Succession(predecessorDoc, successorDoc, signer, hostname), rest))
  }

  function SuccessionKind(s: Suite): PayloadKind<Succession> {
    PayloadKind(SUCCESSION_TAG, (r: Succession) => EncodeSuccession(s, r), (b: Bytes) => DecodeSuccession(s, b),
                (r: Succession) => r.signer)
  }

  ghost function SuccessionOk(s: Suite): Succession -> bool {
    (r: Succession) => ValidSuccession(s, r)
  }

  lemma SuccessionPrefix(s: Suite, r: Succession, tail: Bytes)
    requires ValidSuccession(s, r)
    ensures DecodeSuccession(s, EncodeSuccession(s, r) + tail) == Ok((r, tail))
  {
    hide ReadKey, ReadHostname, WriteHostname, ValidHostname;
    var b3 := WriteHostname(s, r.hostname) + tail;
    var b2 := r.signer + b3;
    var b1 := r.successorDoc + b2;
    assert EncodeSuccession(s, r) + tail == r.predecessorDoc + b1;
    KeyPrefix(s, 1, r.predecessorDoc, b1);
    KeyPrefix(s, 2, r.successorDoc, b2);
    KeyPrefix(s, 3, r.signer, b3);
    HostnamePrefix(s, r.hostname, tail);
  }

  lemma SuccessionCanonical(s: Suite, b: Bytes)
    requires DecodeSuccession(s, b).Ok?
    ensures var (r, rest) := DecodeSuccession(s, b).value; ValidSuccession(s, r) && b == EncodeSuccession(s, r) + rest
  {
    hide ReadKey, ReadHostname, WriteHostname, ValidHostname;
    KeyCanonical(s, 1, b);
    var (predecessorDoc, b1) := ReadKey(s, 1, b).value;
    KeyCanonical(s, 2, b1);
    var (successorDoc, b2) := ReadKey(s, 2, b1).value;
    KeyCanonical(s, 3, b2);
    var (signer, b3) := ReadKey(s, 3, b2).value;
    HostnameCanonical(s, b3);
    var (hostname, rest) := ReadHostname(s, b3).value;
    assert b == EncodeSuccession(s, Succession(predecessorDoc, successorDoc, signer, hostname)) + rest;
  }

  lemma SuccessionLaws(s: Suite)
    ensures LawfulKind(SuccessionKind(s), SuccessionOk(s))
  {
    hide EncodeSuccession, DecodeSuccession, ValidSuccession;
    var k, ok := SuccessionKind(s), SuccessionOk(s);
    forall r: Succession, tail: Bytes | ok(r)
      ensures k.decode(k.encode(r) + tail) == Ok((r, tail))
    {
      SuccessionPrefix(s, r, tail);
    }
    forall b: Bytes | k.decode(b).Ok?
      ensures var (r, rest) := k.decode(b).value; ok(r) && b == k.encode(r) + rest
    {
      SuccessionCanonical(s, b);
    }
  }

  // ----- the encoders and decoders, over a buffer and a cursor -----

  method EncodeRotationFields(buf: Buffer, r: Rotation)
    modifies buf
    ensures buf.bytes == old(buf.bytes) + EncodeRotation(r)
  {
    buf.Extend(r.rootDoc);
    buf.Extend(r.replaced);
    buf.Extend(r.successor);
  }

  method DecodeRotationFields(reader: Reader, s: Suite) returns (r: Result<Rotation, UnitError>)
    requires reader.Valid()
    modifies reader`pos
    ensures reader.Valid()
    ensures Agrees(DecodeRotation(s, old(reader.Rest())), r, reader.Rest())
  {
    var rootDoc :- TakeKey(reader, s, 1);
    var replaced :- TakeKey(reader, s, 2);
    var successor :- TakeKey(reader, s, 3);
    return Ok(Rotation(rootDoc, replaced, successor));
  }

  method EncodeSuccessionFields(buf: Buffer, s: Suite, r: Succession)
    modifies buf
    ensures buf.bytes == old(buf.bytes) + EncodeSuccession(s, r)
  {
    hide WriteHostname;
    buf.Extend(r.predecessorDoc);
    buf.Extend(r.successorDoc);
    buf.Extend(r.signer);
    PutHostname(buf, s, r.hostname);
    ghost var start, hostname := old(buf.bytes), WriteHostname(s, r.hostname);
    Assoc(start + r.predecessorDoc + r.successorDoc, r.signer, hostname);
    Assoc(start + r.predecessorDoc, r.successorDoc, r.signer + hostname);
    Assoc(start, r.predecessorDoc, r.successorDoc + (r.signer + hostname));
  }

  method DecodeSuccessionFields(reader: Reader, s: Suite) returns (r: Result<Succession, UnitError>)
    requires reader.Valid()
    modifies reader`pos
    ensures reader.Valid()
    ensures Agrees(DecodeSuccession(s, old(reader.Rest())), r, reader.Rest())
  {
    var predecessorDoc :- TakeKey(reader, s, 1);
    var successorDoc :- TakeKey(reader, s, 2);
    var signer :- TakeKey(reader, s, 3);
    var hostname :- TakeHostname(reader, s);
    return Ok(Succession(predecessorDoc, successorDoc, signer, hostname));
  }

  method TakeCarriage(reader: Reader, s: Suite) returns (r: Result<seq<Bytes>, UnitError>)
    requires reader.Valid()
    modifies reader`pos
    ensures reader.Valid()
    ensures Agrees(Lift(ReadList(s.varint, old(reader.Rest()))), r, reader.Rest())
  {
    var entries := DecodeList(reader, s.varint);
    return Lift(entries);
  }

  method FinishUnit(reader: Reader) returns (r: Result<(), UnitError>)
    requires reader.Valid()
    ensures r == if reader.Rest() == [] then Ok(()) else Err(BadWire(TrailingBytes(|reader.Rest()|)))
  {
    var finished := reader.Finish();
    return Lift(finished);
  }

  method StartUnit(b: Bytes) returns (r: Result<Reader, UnitError>)
    ensures |b| > MAX_UNIT_BYTES ==> r == Err(BadWire(OversizeUnit(|b|)))
    ensures |b| <= MAX_UNIT_BYTES ==>
              r.Ok? && fresh(r.value) && r.value.Valid() && r.value.bytes == b && r.value.Rest() == b
  {
    var started := Reader.New(b);
    match started {
      case Ok(reader) => return Ok(reader);
      case Err(e) => return Err(BadWire(e));
    }
  }

  method DecodeRotationUnit(s: Suite, b: Bytes) returns (r: Result<Statement<Rotation>, UnitError>)
    ensures r == DecodeStatement(s, RotationKind(s), b)
  {
    hide ReadTag, ReadSignature, ReadList, DecodeRotation, Consumed;
    var reader :- StartUnit(b);
    var _ :- TakeTag(reader, ROTATION_TAG);
    var rotation :- DecodeRotationFields(reader, s);
    var signature :- TakeSignature(reader, s, rotation.successor);
    var authority :- TakeCarriage(reader, s);
    var _ :- FinishUnit(reader);
    return Ok(Statement(s.hash(b), Signed(rotation, signature), authority));
  }

  method DecodeSuccessionUnit(s: Suite, b: Bytes) returns (r: Result<Statement<Succession>, UnitError>)
    ensures r == DecodeStatement(s, SuccessionKind(s), b)
  {
    hide ReadTag, ReadSignature, ReadList, DecodeSuccession, Consumed;
    var reader :- StartUnit(b);
    var _ :- TakeTag(reader, SUCCESSION_TAG);
    var succession :- DecodeSuccessionFields(reader, s);
    var signature :- TakeSignature(reader, s, succession.signer);
    var authority :- TakeCarriage(reader, s);
    var _ :- FinishUnit(reader);
    return Ok(Statement(s.hash(b), Signed(succession, signature), authority));
  }

  method EncodeRotationUnit(s: Suite, u: Statement<Rotation>) returns (b: Bytes)
    ensures b == EncodeStatement(s, RotationKind(s), u)
  {
    hide WriteList, EncodeRotation;
    var buf := new Buffer();
    buf.Extend(ROTATION_TAG);
    assert buf.bytes == ROTATION_TAG;
    EncodeRotationFields(buf, u.signed.payload);
    buf.Extend(u.signed.signature);
    assert buf.bytes == EncodeSigned(RotationKind(s), u.signed);
    EncodeList(buf, s.varint, u.authority);
    b := buf.bytes;
  }

  method EncodeSuccessionUnit(s: Suite, u: Statement<Succession>) returns (b: Bytes)
    ensures b == EncodeStatement(s, SuccessionKind(s), u)
  {
    hide WriteList, EncodeSuccession;
    var buf := new Buffer();
    buf.Extend(SUCCESSION_TAG);
    assert buf.bytes == SUCCESSION_TAG;
    EncodeSuccessionFields(buf, s, u.signed.payload);
    buf.Extend(u.signed.signature);
    assert buf.bytes == EncodeSigned(SuccessionKind(s), u.signed);
    EncodeList(buf, s.varint, u.authority);
    b := buf.bytes;
  }

  /** Construct and sign a rotation: the signer is the successor key itself. */
  method SignRotation(s: Suite, rootDoc: Bytes, replaced: Bytes, secret: Bytes, authority: seq<Bytes>)
    returns (r: Result<Statement<Rotation>, UnitError>)
    requires IsKey(s, rootDoc) && IsKey(s, replaced)
    ensures r.Ok? ==> ValidStatement(s, RotationKind(s), RotationOk(s), r.value)
    ensures r.Ok? ==> r.value.signed.payload == Rotation(rootDoc, replaced, s.publicKey(secret))
    ensures r.Ok? ==> r.value.authority == authority
    ensures r.Err? <==> 164 + |WriteList(s.varint, authority)| > MAX_UNIT_BYTES
    ensures r.Err? ==> r.error == BadWire(OversizeUnit(164 + |WriteList(s.varint, authority)|))
  {
    hide WriteList;
    var k := RotationKind(s);
    var payload := Rotation(rootDoc, replaced, s.publicKey(secret));
    assert IsKey(s, s.publicKey(secret));
    SigningSucceeds(s, k, payload, secret);
    var signed := Sign(s, k, payload, secret).value;
    CompleteIsValid(s, k, RotationOk(s), signed, authority);
    var b := EncodeRotationUnit(s, Statement([], signed, authority));
    if |b| > MAX_UNIT_BYTES {
      return Err(BadWire(OversizeUnit(|b|)));
    }
    return Ok(Statement(s.hash(b), signed, authority));
  }

  /** Construct and sign a succession with a key of the predecessor document. */
  method SignSuccession(s: Suite, predecessorDoc: Bytes, successorDoc: Bytes, hostname: Bytes, secret: Bytes,
                        authority: seq<Bytes>)
    returns (r: Result<Statement<Succession>, UnitError>)
    requires IsKey(s, predecessorDoc) && IsKey(s, successorDoc) && ValidHostname(hostname)
    ensures r.Ok? ==> ValidStatement(s, SuccessionKind(s), SuccessionOk(s), r.value)
    ensures r.Ok? ==> r.value.signed.payload == Succession(predecessorDoc, successorDoc, s.publicKey(secret), hostname)
    ensures r.Ok? ==> r.value.authority == authority
    ensures var len := 164 + |WriteHostname(s, hostname)| + |WriteList(s.varint, authority)|;
            (r.Err? <==> len > MAX_UNIT_BYTES) && (r.Err? ==> r.error == BadWire(OversizeUnit(len)))
  {
    hide WriteList, WriteHostname, ValidHostname;
    var k := SuccessionKind(s);
    var payload := Succession(predecessorDoc, successorDoc, s.publicKey(secret), hostname);
    assert IsKey(s, s.publicKey(secret));
    SigningSucceeds(s, k, payload, secret);
    var signed := Sign(s, k, payload, secret).value;
    CompleteIsValid(s, k, SuccessionOk(s), signed, authority);
    var b := EncodeSuccessionUnit(s, Statement([], signed, authority));
    if |b| > MAX_UNIT_BYTES {
      return Err(BadWire(OversizeUnit(|b|)));
    }
    return Ok(Statement(s.hash(b), signed, authority));
  }
}
