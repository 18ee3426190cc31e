/**
 The signed-unit core (onomancy_core/src/signed.rs): tag, fields, signature, verified
 against the received bytes. A payload kind is the four things the source's `Payload`
 supplies; what the skeleton needs of it is `LawfulKind`.
 */
module SignedUnits {
  import opened Wrappers
  import opened Wire
  import opened DnsNames

  const TAG_LEN: nat := 4
  const KEY_LEN: nat := 32
  const SIGNATURE_LEN: nat := 64

  datatype UnitError =
    | BadWire(wire: WireError)
    | WrongTag(expected: Bytes, got: Bytes)
    | InvalidSignature
    | NotACurvePoint(field: nat)
    | BadHostname(hostname: CanonicalError)
    | HeadsNotCanonical
    | BadPredecessor(source: UnitError)
    | BadLineage(index: nat, source: UnitError)

  /** The cryptography and the varint crate, seen from outside. */
  datatype SuiteParts = SuiteParts(
    varint: Varint,
    canonical: Bytes -> bool,
    verify: (Bytes, Bytes, Bytes) -> bool,
    publicKey: Bytes -> Bytes,
    sign: (Bytes, Bytes) -> Bytes,
    hash: Bytes -> Bytes)

  /** Signing with a key verifies under its public key, which is canonical. */
  ghost predicate LawfulSuite(s: SuiteParts) {
    && (forall secret: Bytes :: IsKey(s, s.publicKey(secret)))
    && (forall secret: Bytes, message: Bytes ::
          |s.sign(secret, message)| == SIGNATURE_LEN && s.verify(s.publicKey(secret), message, s.sign(secret, message)))
  }

  type Suite = s: SuiteParts | LawfulSuite(s) ghost witness SomeSuite()

  function Zeros(n: nat): (b: Bytes)
    ensures |b| == n
  {
    if n == 0 then [] else Zeros(n - 1) + [0]
  }

  /** A suite that meets the contract, so that the contract is not empty: everything verifies. */
  ghost function SomeSuite(): (s: SuiteParts)
    ensures LawfulSuite(s)
  {
    CredulousIsLawful(FixedWidth());
    Credulous(FixedWidth())
  }

  ghost function Credulous(c: Varint): SuiteParts {
    SuiteParts(c, (b: Bytes) => true, (k: Bytes, m: Bytes, g: Bytes) => true,
               (k: Bytes) => Zeros(KEY_LEN), (k: Bytes, m: Bytes) => Zeros(SIGNATURE_LEN), (b: Bytes) => b)
  }

  lemma CredulousIsLawful(c: Varint)
    ensures LawfulSuite(Credulous(c))
  {
    hide LawfulVarint;
    var s := Credulous(c);
    forall secret: Bytes
      ensures IsKey(s, s.publicKey(secret))
    {
      assert s.publicKey(secret) == Zeros(KEY_LEN);
    }
    forall secret: Bytes, message: Bytes
      ensures |s.sign(secret, message)| == SIGNATURE_LEN
    {
      assert s.sign(secret, message) == Zeros(SIGNATURE_LEN);
    }
  }

  predicate IsKey(s: SuiteParts, key: Bytes) {
    |key| == KEY_LEN && s.canonical(key)
  }

  type UnitRead<+T> = Result<(T, Bytes), UnitError>

  function Lift<T>(r: Result<T, WireError>): Result<T, UnitError> {
    match r
    case Ok(v) => Ok(v)
    case Err(e) => Err(BadWire(e))
  }

  /** One key field: 32 octets that spell a curve point canonically. */
  function ReadKey(s: Suite, field: nat, b: Bytes): UnitRead<Bytes> {
    var (key, rest) :- Lift(ReadBytes(b, KEY_LEN));
    if s.canonical(key) then Ok((key, rest)) else Err(NotACurvePoint(field))
  }

  lemma {:induction false} KeyPrefix(s: Suite, field: nat, key: Bytes, tail: Bytes)
    requires IsKey(s, key)
    ensures ReadKey(s, field, key + tail) == Ok((key, tail))
  {
    assert (key + tail)[..KEY_LEN] == key && (key + tail)[KEY_LEN..] == tail;
  }

  lemma KeyCanonical(s: Suite, field: nat, b: Bytes)
    requires ReadKey(s, field, b).Ok?
    ensures var (key, rest) := ReadKey(s, field, b).value; IsKey(s, key) && b == key + rest
  {
  }

  /** A length-prefixed hostname, canonical or refused. */
  function ReadHostname(s: Suite, b: Bytes): UnitRead<Bytes> {
    var (len, b1) :- Lift(ReadLength(s.varint, b, 1));
    var (raw, rest) :- Lift(ReadBytes(b1, len));
    match FromCanonical(raw)
    case Ok(name) => Ok((name, rest))
    case Err(e) => Err(BadHostname(e))
  }

  function WriteHostname(s: Suite, name: Bytes): Bytes {
    s.varint.encode(|name|) + name
  }

  lemma HostnamePrefix(s: Suite, name: Bytes, tail: Bytes)
    requires ValidHostname(name)
    ensures ReadHostname(s, WriteHostname(s, name) + tail) == Ok((name, tail))
  {
    hide FromCanonical;
    CanonicalNames(name);
    assert WriteHostname(s, name) + tail == s.varint.encode(|name|) + (name + tail);
    LengthPrefix(s.varint, |name|, name + tail, 1);
    assert (name + tail)[..|name|] == name && (name + tail)[|name|..] == tail;
  }

  lemma HostnameCanonical(s: Suite, b: Bytes)
    requires ReadHostname(s, b).Ok?
    ensures var (name, rest) := ReadHostname(s, b).value; ValidHostname(name) && b == WriteHostname(s, name) + rest
  {
    hide FromCanonical, ValidHostname;
    var (len, b1) := ReadLength(s.varint, b, 1).value;
    CanonicalNames(b1[..len]);
    assert b1 == b1[..len] + b1[len..];
  }

  // ----- payload kinds -----

  datatype PayloadKind<!P> = PayloadKind(
    tag: Bytes,
    encode: P -> Bytes,
    decode: Bytes -> UnitRead<P>,
    signer: P -> Bytes)

  /** Every well-formed payload reads back, whatever follows it. */
  ghost predicate Prefixes<P(!new)>(k: PayloadKind<P>, ok: P -> bool) {
    forall p: P, tail: Bytes | ok(p) :: k.decode(k.encode(p) + tail) == Ok((p, tail))
  }

  /** Every payload that reads is well formed and spelled one way. */
  ghost predicate SpellsOnce<P(!new)>(k: PayloadKind<P>, ok: P -> bool) {
    forall b: Bytes | k.decode(b).Ok? ::
      var (p, rest) := k.decode(b).value; ok(p) && b == k.encode(p) + rest
  }

  ghost predicate LawfulKind<P(!new)>(k: PayloadKind<P>, ok: P -> bool) {
    |k.tag| == TAG_LEN && Prefixes(k, ok) && SpellsOnce(k, ok)
  }

  // ----- the skeleton -----

  datatype Signed<P> = Signed(payload: P, signature: Bytes)

  /** What a signature covers. */
  function Region<P>(k: PayloadKind<P>, p: P): Bytes {
    k.tag + k.encode(p)
  }

  function EncodeSigned<P>(k: PayloadKind<P>, u: Signed<P>): Bytes {
    Region(k, u.payload) + u.signature
  }

  /** The part of a unit already read. */
  function Consumed(b: Bytes, rest: Bytes): Bytes {
    if |rest| <= |b| then b[..|b| - |rest|] else []
  }

  lemma ConsumedPart(part: Bytes, rest: Bytes)
    ensures Consumed(part + rest, rest) == part
  {
  }

  lemma Halves(b: Bytes, n: nat)
    ensures n <= |b| ==> b == b[..n] + b[n..]
  {
  }

  function ReadTag(tag: Bytes, b: Bytes): UnitRead<()> {
    var (got, rest) :- Lift(ReadBytes(b, TAG_LEN));
    if got == tag then Ok(((), rest)) else Err(WrongTag(tag, got))
  }

  /** The signature, verified against the received bytes. */
  function ReadSignature(s: Suite, signer: Bytes, region: Bytes, b: Bytes): UnitRead<Bytes> {
    var (signature, rest) :- Lift(ReadBytes(b, SIGNATURE_LEN));
    if s.verify(signer, region, signature) then Ok((signature, rest)) else Err(InvalidSignature)
  }

  function DecodeSigned<P>(s: Suite, k: PayloadKind<P>, b: Bytes): UnitRead<Signed<P>> {
    var (_, b1) :- ReadTag(k.tag, b);
    var (payload, b2) :- k.decode(b1);
    var (signature, rest) :- ReadSignature(s, k.signer(payload), Consumed(b, b2), b2);
    Ok((Signed(payload, signature), rest))
  }

  /** A signature that validates over its payload's own bytes. */
  ghost predicate ValidSigned<P>(s: Suite, k: PayloadKind<P>, ok: P -> bool, u: Signed<P>) {
    ok(u.payload) && |u.signature| == SIGNATURE_LEN && s.verify(k.signer(u.payload), Region(k, u.payload), u.signature)
  }

  /** A unit from its parts, refused when the signature does not verify over the payload. */
  function FromParts<P>(s: Suite, k: PayloadKind<P>, payload: P, signature: Bytes): Result<Signed<P>, UnitError> {
    if s.verify(k.signer(payload), Region(k, payload), signature) then Ok(Signed(payload, signature))
    else Err(InvalidSignature)
  }

  /** Sign with a secret key; refused unless it is the key the payload names. */
  function Sign<P>(s: Suite, k: PayloadKind<P>, payload: P, secret: Bytes): Result<Signed<P>, UnitError> {
    FromParts(s, k, payload, s.sign(secret, Region(k, payload)))
  }

  lemma {:induction false} SigningSucceeds<P>(s: Suite, k: PayloadKind<P>, payload: P, secret: Bytes)
    requires k.signer(payload) == s.publicKey(secret)
    ensures Sign(s, k, payload, secret) == Ok(Signed(payload, s.sign(secret, Region(k, payload))))
    ensures |s.sign(secret, Region(k, payload))| == SIGNATURE_LEN
  {
    assert s.verify(s.publicKey(secret), Region(k, payload), s.sign(secret, Region(k, payload)));
  }

  /** A valid unit reads back from its own bytes, whatever unsigned tail follows. */
  lemma {:induction false} SignedPrefix<P(!new)>(s: Suite, k: PayloadKind<P>, ok: P -> bool, u: Signed<P>, tail: Bytes)
    requires LawfulKind(k, ok) && ValidSigned(s, k, ok, u)
    ensures DecodeSigned(s, k, EncodeSigned(k, u) + tail) == Ok((u, tail))
  {
    hide LawfulSuite;
    var fields := k.encode(u.payload);
    var b2 := u.signature + tail;
    var b1 := fields + b2;
    Assoc(Region(k, u.payload), u.signature, tail);
    Assoc(k.tag, fields, b2);
    assert (k.tag + b1)[..TAG_LEN] == k.tag && (k.tag + b1)[TAG_LEN..] == b1;
    assert k.decode(b1) == Ok((u.payload, b2));
    ConsumedPart(Region(k, u.payload), b2);
    assert b2[..SIGNATURE_LEN] == u.signature && b2[SIGNATURE_LEN..] == tail;
  }

  /** Whatever decodes is a valid unit's own bytes, so re-encoding gives the bytes received. */
  lemma {:induction false} SignedCanonical<P(!new)>(s: Suite, k: PayloadKind<P>, ok: P -> bool, b: Bytes)
    requires LawfulKind(k, ok) && DecodeSigned(s, k, b).Ok?
    ensures var (u, rest) := DecodeSigned(s, k, b).value;
            ValidSigned(s, k, ok, u) && b == EncodeSigned(k, u) + rest
  {
    hide LawfulSuite;
    var (u, rest) := DecodeSigned(s, k, b).value;
    var b1 := b[TAG_LEN..];
    var (payload, b2) := k.decode(b1).value;
    var fields := k.encode(payload);
    assert b == k.tag + b1;
    assert b1 == fields + b2;
    Assoc(k.tag, fields, b2);
    ConsumedPart(Region(k, payload), b2);
    Halves(b2, SIGNATURE_LEN);
    Assoc(Region(k, payload), u.signature, rest);
  }

  /**
   The signed region delimits itself: bytes that begin with a valid unit's signed region
   and signature decode to that unit, whatever follows.
   */
  lemma {:induction false} SelfDelimiting<P(!new)>(s: Suite, k: PayloadKind<P>, ok: P -> bool, u: Signed<P>, b: Bytes)
    requires LawfulKind(k, ok) && ValidSigned(s, k, ok, u) && EncodeSigned(k, u) <= b
    ensures DecodeSigned(s, k, b) == Ok((u, b[|EncodeSigned(k, u)|..]))
  {
    hide EncodeSigned, DecodeSigned, LawfulKind, ValidSigned;
    var head := EncodeSigned(k, u);
    assert b == head + b[|head|..];
    SignedPrefix(s, k, ok, u, b[|head|..]);
  }

  /** No bytes decode as units of two kinds: tags separate the domains. */
  lemma {:induction false} TagsSeparate<P, Q>(s: Suite, k: PayloadKind<P>, l: PayloadKind<Q>, b: Bytes)
    requires k.tag != l.tag
    ensures DecodeSigned(s, k, b).Err? || DecodeSigned(s, l, b).Err?
  {
  }

  // ----- the cursor's side -----

  method TakeTag(reader: Reader, tag: Bytes) returns (r: Result<(), UnitError>)
    requires reader.Valid()
    modifies reader`pos
    ensures reader.Valid()
    ensures Agrees(ReadTag(tag, old(reader.Rest())), r, reader.Rest())
  {
    var got := reader.Take(TAG_LEN);
    if got.Err? {
      return Err(BadWire(got.error));
    }
    if got.value != tag {
      return Err(WrongTag(tag, got.value));
    }
    return Ok(());
  }

  method TakeKey(reader: Reader, s: Suite, field: nat) returns (r: Result<Bytes, UnitError>)
    requires reader.Valid()
    modifies reader`pos
    ensures reader.Valid()
    ensures Agrees(ReadKey(s, field, old(reader.Rest())), r, reader.Rest())
  {
    var taken := reader.Take(KEY_LEN);
    if taken.Err? {
      return Err(BadWire(taken.error));
    }
    if !s.canonical(taken.value) {
      return Err(NotACurvePoint(field));
    }
    return Ok(taken.value);
  }

  method TakeHostname(reader: Reader, s: Suite) returns (r: Result<Bytes, UnitError>)
    requires reader.Valid()
    modifies reader`pos
    ensures reader.Valid()
    ensures Agrees(ReadHostname(s, old(reader.Rest())), r, reader.Rest())
  {
    var len := reader.BoundedLen(s.varint, 1);
    if len.Err? {
      return Err(BadWire(len.error));
    }
    var raw := reader.Take(len.value);
    if raw.Err? {
      return Err(BadWire(raw.error));
    }
    match FromCanonical(raw.value) {
      case Err(e) => return Err(BadHostname(e));
      case Ok(name) => return Ok(name);
    }
  }

  method PutHostname(buf: Buffer, s: Suite, name: Bytes)
    modifies buf
    ensures buf.bytes == old(buf.bytes) + WriteHostname(s, name)
  {
    buf.PutVarint(s.varint, |name|);
    buf.Extend(name);
  }

  /** The signature at the cursor, over everything the cursor has read of the unit. */
  method TakeSignature(reader: Reader, s: Suite, signer: Bytes) returns (r: Result<Bytes, UnitError>)
    requires reader.Valid()
    modifies reader`pos
    ensures reader.Valid()
    ensures var before := old(reader.Rest());
            Agrees(ReadSignature(s, signer, Consumed(reader.bytes, before), before), r, reader.Rest())
  {
    var region := reader.bytes[..reader.pos];
    assert region == Consumed(reader.bytes, reader.Rest());
    var taken := reader.Take(SIGNATURE_LEN);
    if taken.Err? {
      return Err(BadWire(taken.error));
    }
    if !s.verify(signer, region, taken.value) {
      return Err(InvalidSignature);
    }
    return Ok(taken.value);
  }
}
