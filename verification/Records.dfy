/**
 Resource records and their RDATA views (onomancy_dnssec/src/wire): the record frame,
 and the DNSKEY, DS, CNAME, TXT and RRSIG readings of an RDATA.
 */
module Records {
  import opened Wrappers
  import opened Wire
  import opened Names
  import opened KeyTags

  const CNAME: nat := 5
  const TXT: nat := 16
  const DS: nat := 43
  const RRSIG: nat := 46
  const NSEC: nat := 47
  const DNSKEY: nat := 48
  const NSEC3: nat := 50

  const CLASS_IN: nat := 1

  datatype Record = Record(owner: Name, rtype: nat, class_: nat, ttl: nat, rdata: Bytes)

  datatype RecordError = InOwner(name: NameError) | InFrame(wire: WireError)

  /** What the fields of a record can hold: a canonical owner and 16- and 32-bit integers. */
  predicate ValidRecord(r: Record) {
    && ValidName(r.owner)
    && r.rtype < 0x1_0000 && r.class_ < 0x1_0000 && r.ttl < 0x1_0000_0000
    && |r.rdata| < 0x1_0000
  }

  /** One fixed-width big-endian integer. */
  function ReadUint(b: Bytes, width: nat): (r: Read<nat>)
    ensures r.Ok? ==> |r.value.1| == |b| - width
  {
    var (field, rest) :- ReadBytes(b, width);
    Ok((FromBigEndian(field), rest))
  }

  lemma UintPrefix(width: nat, v: nat, tail: Bytes)
    requires v < Power256(width)
    ensures ReadUint(BigEndian(width, v) + tail, width) == Ok((v, tail))
  {
    var b := BigEndian(width, v) + tail;
    assert b[..width] == BigEndian(width, v) && b[width..] == tail;
    BigEndianValue(width, v);
  }

  lemma UintCanonical(b: Bytes, width: nat)
    requires ReadUint(b, width).Ok?
    ensures var (v, rest) := ReadUint(b, width).value;
            v < Power256(width) && b == BigEndian(width, v) + rest
  {
    BigEndianSpelling(b[..width]);
    assert b == b[..width] + b[width..];
  }

  // ----- the record frame -----

  /** The frame after the owner: type, class, TTL, and the length-prefixed RDATA. */
  function WriteFrame(r: Record): Bytes {
    BigEndian(2, r.rtype) + (BigEndian(2, r.class_) + (BigEndian(4, r.ttl)
      + (BigEndian(2, if |r.rdata| < 0x1_0000 then |r.rdata| else 0xFFFF) + r.rdata)))
  }

  function WriteRecord(r: Record): Bytes {
    WriteName(r.owner) + WriteFrame(r)
  }

  function ReadFrame(owner: Name, b: Bytes): (r: Read<Record>)
    ensures r.Ok? ==> |r.value.1| < |b|
  {
    var (rtype, b1) :- ReadUint(b, 2);
    var (class_, b2) :- ReadUint(b1, 2);
    var (ttl, b3) :- ReadUint(b2, 4);
    var (rdlength, b4) :- ReadUint(b3, 2);
    var (rdata, b5) :- ReadBytes(b4, rdlength);
    Ok((Record(owner, rtype, class_, ttl, rdata), b5))
  }

  function ReadRecord(b: Bytes): (r: Result<(Record, Bytes), RecordError>)
    ensures r.Ok? ==> |r.value.1| < |b|
  {
    match ReadName(b)
    case Err(e) => Err(InOwner(e))
    case Ok((owner, rest)) =>
      match ReadFrame(owner, rest)
      case Err(e) => Err(InFrame(e))
      case Ok(framed) => Ok(framed)
  }

  lemma Powers()
    ensures Power256(2) == 0x1_0000 && Power256(4) == 0x1_0000_0000
  {
    assert Power256(0) == 1 && Power256(1) == 256 && Power256(2) == 65536 && Power256(3) == 0x100_0000;
  }

  lemma FrameAppend(r: Record, tail: Bytes)
    requires |r.rdata| < 0x1_0000
    ensures WriteFrame(r) + tail
            == BigEndian(2, r.rtype) + (BigEndian(2, r.class_) + (BigEndian(4, r.ttl)
                 + (BigEndian(2, |r.rdata|) + (r.rdata + tail))))
  {
  }

  lemma FramePrefix(r: Record, tail: Bytes)
    requires ValidRecord(r)
    ensures ReadFrame(r.owner, WriteFrame(r) + tail) == Ok((r, tail))
  {
    Powers();
    var b4 := r.rdata + tail;
    var b3 := BigEndian(2, |r.rdata|) + b4;
    var b2 := BigEndian(4, r.ttl) + b3;
    var b1 := BigEndian(2, r.class_) + b2;
    FrameAppend(r, tail);
    UintPrefix(2, r.rtype, b1);
    UintPrefix(2, r.class_, b2);
    UintPrefix(4, r.ttl, b3);
    UintPrefix(2, |r.rdata|, b4);
    assert b4[..|r.rdata|] == r.rdata && b4[|r.rdata|..] == tail;
  }

  lemma FrameCanonical(owner: Name, b: Bytes)
    requires ReadFrame(owner, b).Ok? && ValidName(owner)
    ensures var (r, rest) := ReadFrame(owner, b).value;
            r.owner == owner && ValidRecord(r) && b == WriteFrame(r) + rest
  {
    hide ReadUint, BigEndian, FromBigEndian, WriteFrame, ValidName;
    Powers();
    var (rtype, b1) := ReadUint(b, 2).value;
    var (class_, b2) := ReadUint(b1, 2).value;
    var (ttl, b3) := ReadUint(b2, 4).value;
    var (rdlength, b4) := ReadUint(b3, 2).value;
    var (r, rest) := ReadFrame(owner, b).value;
    UintCanonical(b, 2);
    UintCanonical(b1, 2);
    UintCanonical(b2, 4);
    UintCanonical(b3, 2);
    assert b4 == r.rdata + rest;
    FrameAppend(r, rest);
  }

  /** Every record that reads re-writes to exactly the bytes consumed. */
  lemma RecordCanonical(b: Bytes)
    requires ReadRecord(b).Ok?
    ensures var (r, rest) := ReadRecord(b).value; ValidRecord(r) && b == WriteRecord(r) + rest
  {
    NameCanonical(b);
    var (owner, rest) := ReadName(b).value;
    FrameCanonical(owner, rest);
    var (r, after) := ReadRecord(b).value;
    assert WriteName(owner) + (WriteFrame(r) + after) == WriteRecord(r) + after;
  }

  /** Every record of representable fields reads back, whatever follows it. */
  lemma RecordPrefix(r: Record, tail: Bytes)
    requires ValidRecord(r)
    ensures WriteRecord(r) != []
    ensures ReadRecord(WriteRecord(r) + tail) == Ok((r, tail))
  {
    assert WriteRecord(r) + tail == WriteName(r.owner) + (WriteFrame(r) + tail);
    NamePrefix(r.owner, WriteFrame(r) + tail);
    FramePrefix(r, tail);
  }

  // ----- over a cursor -----

  method TakeUint(reader: Reader, width: nat) returns (r: Result<nat, WireError>)
    requires reader.Valid()
    modifies reader`pos
    ensures reader.Valid()
    ensures Agrees(ReadUint(old(reader.Rest()), width), r, reader.Rest())
  {
    var field :- reader.Take(width);
    return Ok(FromBigEndian(field));
  }

  method TakeFrame(reader: Reader, owner: Name) returns (r: Result<Record, WireError>)
    requires reader.Valid()
    modifies reader`pos
    ensures reader.Valid()
    ensures Agrees(ReadFrame(owner, old(reader.Rest())), r, reader.Rest())
  {
    hide ReadUint, ReadBytes;
    var rtype :- TakeUint(reader, 2);
    var class_ :- TakeUint(reader, 2);
    var ttl :- TakeUint(reader, 4);
    var rdlength :- TakeUint(reader, 2);
    var rdata :- reader.Take(rdlength);
    return Ok(Record(owner, rtype, class_, ttl, rdata));
  }

  /** One record from a cursor: exactly the octets of a representable record, which it leaves behind. */
  method TakeRecord(reader: Reader) returns (r: Result<Record, RecordError>)
    requires reader.Valid()
    modifies reader`pos
    ensures reader.Valid()
    ensures Agrees(ReadRecord(old(reader.Rest())), r, reader.Rest())
    ensures r.Ok? ==> ValidRecord(r.value) && old(reader.Rest()) == WriteRecord(r.value) + reader.Rest()
  {
    hide ReadName, ReadFrame, ValidRecord, WriteRecord;
    ghost var start := reader.Rest();
    var owner := TakeName(reader);
    if owner.Err? {
      return Err(InOwner(owner.error));
    }
    var framed := TakeFrame(reader, owner.value);
    if framed.Err? {
      return Err(InFrame(framed.error));
    }
    RecordCanonical(start);
    return Ok(framed.value);
  }

  // ----- RDATA views -----

  datatype Dnskey = Dnskey(flags: nat, algorithm: nat, publicKey: Bytes, rdata: Bytes) {
    /** The ZONE flag: only zone keys may verify zone data. */
    predicate IsZoneKey() {
      flags / 0x100 % 2 == 1
    }

    function Tag(): nat {
      KeyTag(rdata)
    }
  }

  datatype Ds = Ds(keyTag: nat, algorithm: nat, digestType: nat, digest: Bytes)

  datatype Rrsig = Rrsig(
    typeCovered: nat, algorithm: nat, labels: nat, originalTtl: nat, expiration: nat, inception: nat,
    keyTag: nat, signer: Name, preamble: Bytes, signature: Bytes)

  const PROTOCOL_DNSSEC: nat := 3

  function ParseDnskey(rdata: Bytes): Option<Dnskey> {
    if |rdata| > MAX_UNIT_BYTES || |rdata| < 4 || rdata[2] as nat != PROTOCOL_DNSSEC then None
    else Some(Dnskey(FromBigEndian(rdata[..2]), rdata[3] as nat, rdata[4..], rdata))
  }

  /** The digest is what follows the fixed four octets; an empty one is refused. */
  function ParseDs(rdata: Bytes): Option<Ds> {
    if |rdata| > MAX_UNIT_BYTES || |rdata| <= 4 then None
    else Some(Ds(FromBigEndian(rdata[..2]), rdata[2] as nat, rdata[3] as nat, rdata[4..]))
  }

  function ParseCname(rdata: Bytes): Option<Name> {
    if |rdata| > MAX_UNIT_BYTES then None
    else match ReadName(rdata)
         case Ok((target, rest)) => if rest == [] then Some(target) else None
         case Err(_) => None
  }

  /** The character strings of a TXT RDATA, concatenated. */
  function TxtStrings(rdata: Bytes): Option<Bytes> {
    if rdata == [] then Some([])
    else
      var len := rdata[0] as nat;
      if 1 + len > |rdata| then None
      else match TxtStrings(rdata[1 + len..])
           case None => None
           case Some(rest) => Some(rdata[1..1 + len] + rest)
  }

  /** At least one character string is required. */
  function ParseTxt(rdata: Bytes): Option<Bytes> {
    if |rdata| > MAX_UNIT_BYTES || rdata == [] then None else TxtStrings(rdata)
  }

  datatype RrsigError = InSigner(name: NameError) | InFields(wire: WireError)

  /** Octets of an RRSIG before the signer name: type, algorithm, labels, TTL, window, key tag. */
  const RRSIG_FIXED: nat := 18

  function ParseRrsig(rdata: Bytes): Result<Rrsig, RrsigError> {
    if |rdata| > MAX_UNIT_BYTES then Err(InFields(OversizeUnit(|rdata|)))
    else if |rdata| < RRSIG_FIXED then Err(InFields(TruncatedField(|rdata|)))
    else match ReadName(rdata[RRSIG_FIXED..])
         case Err(e) => Err(InSigner(e))
         case Ok((signer, signature)) =>
           Ok(Rrsig(FromBigEndian(rdata[..2]), rdata[2] as nat, rdata[3] as nat,
                    FromBigEndian(rdata[4..8]), FromBigEndian(rdata[8..12]), FromBigEndian(rdata[12..16]),
                    FromBigEndian(rdata[16..18]), signer, rdata[..|rdata| - |signature|], signature))
  }

  /** The first field cut short by an RDATA of `have` octets, and what was left for it. */
  function TruncatedField(have: nat): WireError
    requires have < RRSIG_FIXED
  {
    if have < 2 then Truncated(2, have)
    else if have < 3 then Truncated(1, 0)
    else if have < 4 then Truncated(1, 0)
    else if have < 8 then Truncated(4, have - 4)
    else if have < 12 then Truncated(4, have - 8)
    else if have < 16 then Truncated(4, have - 12)
    else Truncated(2, have - 16)
  }

  /** The type an RRSIG record covers, read from the first two RDATA octets; none for other records. */
  function CoveredType(r: Record): Option<nat> {
    if r.rtype == RRSIG && |r.rdata| >= 2 then Some(FromBigEndian(r.rdata[..2])) else None
  }

  /** An RRSIG covers the type its first two octets spell, and nothing else covers any. */
  lemma CoveredTypeExactly(r: Record, t: nat)
    ensures CoveredType(r) == Some(t) <==>
            r.rtype == 46 && |r.rdata| >= 2 && t < 0x1_0000 && r.rdata[..2] == BigEndian(2, t)
  {
    if |r.rdata| >= 2 {
      BigEndianSpelling(r.rdata[..2]);
      assert Power256(2) == 0x1_0000;
    }
    if t < 0x1_0000 {
      assert Power256(2) == 0x1_0000;
      BigEndianValue(2, t);
    }
  }

  lemma CoveredTypeAgrees(r: Record)
    requires r.rtype == RRSIG && ParseRrsig(r.rdata).Ok?
    ensures CoveredType(r) == Some(ParseRrsig(r.rdata).value.typeCovered)
  {
  }

  lemma {:induction false} SuffixSplit(b: Bytes, from: nat, middle: Bytes, suffix: Bytes)
    requires from <= |b| && b[from..] == middle + suffix
    ensures b[..|b| - |suffix|] + suffix == b
  {
    assert b == b[..from] + b[from..];
  }

  lemma PreamblePartition(rdata: Bytes)
    requires ParseRrsig(rdata).Ok?
    ensures var s := ParseRrsig(rdata).value; s.preamble + s.signature == rdata
  {
    hide ReadName, WriteName, FromBigEndian, ValidName;
    NameCanonical(rdata[RRSIG_FIXED..]);
    var (signer, signature) := ReadName(rdata[RRSIG_FIXED..]).value;
    SuffixSplit(rdata, RRSIG_FIXED, WriteName(signer), signature);
  }

  // ----- the RDATA layouts: each view and the octets it is read from -----

  /** Flags, the protocol octet 3, algorithm and key (section 2.1 of RFC 4034). */
  lemma DnskeyLayout(rdata: Bytes, key: Dnskey)
    ensures ParseDnskey(rdata) == Some(key) <==>
            && |rdata| <= MAX_UNIT_BYTES && key.rdata == rdata && key.flags < 0x1_0000 && key.algorithm < 0x100
            && rdata == BigEndian(2, key.flags) + [3, key.algorithm as byte] + key.publicKey
  {
    hide BigEndian, FromBigEndian;
    Powers();
    if ParseDnskey(rdata) == Some(key) {
      BigEndianSpelling(rdata[..2]);
      assert rdata == rdata[..2] + [rdata[2], rdata[3]] + rdata[4..];
    }
    if key.flags < 0x1_0000 && key.algorithm < 0x100
       && rdata == BigEndian(2, key.flags) + [3, key.algorithm as byte] + key.publicKey {
      BigEndianValue(2, key.flags);
      assert rdata[..2] == BigEndian(2, key.flags) && rdata[4..] == key.publicKey;
    }
  }

  /** The ZONE flag is the bit worth 256. */
  lemma ZoneFlag(key: Dnskey)
    ensures key.IsZoneKey() <==> key.flags % 512 >= 256
  {
  }

  /** Key tag, algorithm, digest type, and a digest that is not empty (section 5.1 of RFC 4034). */
  lemma DsLayout(rdata: Bytes, ds: Ds)
    ensures ParseDs(rdata) == Some(ds) <==>
            && |rdata| <= MAX_UNIT_BYTES && ds.digest != []
            && ds.keyTag < 0x1_0000 && ds.algorithm < 0x100 && ds.digestType < 0x100
            && rdata == BigEndian(2, ds.keyTag) + [ds.algorithm as byte, ds.digestType as byte] + ds.digest
  {
    hide BigEndian, FromBigEndian;
    Powers();
    if ParseDs(rdata) == Some(ds) {
      BigEndianSpelling(rdata[..2]);
      assert rdata == rdata[..2] + [rdata[2], rdata[3]] + rdata[4..];
    }
    if ds.keyTag < 0x1_0000 && ds.algorithm < 0x100 && ds.digestType < 0x100
       && rdata == BigEndian(2, ds.keyTag) + [ds.algorithm as byte, ds.digestType as byte] + ds.digest {
      BigEndianValue(2, ds.keyTag);
      assert rdata[..2] == BigEndian(2, ds.keyTag) && rdata[4..] == ds.digest;
    }
  }

  /** One uncompressed name and nothing else. */
  lemma CnameLayout(rdata: Bytes, target: Name)
    ensures ParseCname(rdata) == Some(target) <==>
            |rdata| <= MAX_UNIT_BYTES && ValidName(target) && rdata == WriteName(target)
  {
    hide ReadName, WriteName, ValidName;
    if ParseCname(rdata) == Some(target) {
      NameCanonical(rdata);
      assert WriteName(target) + [] == WriteName(target);
    }
    if ValidName(target) && rdata == WriteName(target) {
      NamePrefix(target, []);
      assert WriteName(target) + [] == WriteName(target);
    }
  }

  /** The eighteen octets an RRSIG begins with (section 3.1 of RFC 4034), the expiration before the inception. */
  function RrsigHead(s: Rrsig): Bytes
    requires s.algorithm < 0x100 && s.labels < 0x100
  {
    BigEndian(2, s.typeCovered) + [s.algorithm as byte, s.labels as byte] + BigEndian(4, s.originalTtl)
    + BigEndian(4, s.expiration) + BigEndian(4, s.inception) + BigEndian(2, s.keyTag)
  }

  predicate RrsigFieldsFit(s: Rrsig) {
    && s.typeCovered < 0x1_0000 && s.algorithm < 0x100 && s.labels < 0x100 && s.originalTtl < 0x1_0000_0000
    && s.expiration < 0x1_0000_0000 && s.inception < 0x1_0000_0000 && s.keyTag < 0x1_0000
  }

  lemma {:induction false} RrsigHeadRead(s: Rrsig, tail: Bytes)
    requires RrsigFieldsFit(s)
    ensures var rdata := RrsigHead(s) + tail;
            && |rdata| == RRSIG_FIXED + |tail| && rdata[RRSIG_FIXED..] == tail
            && FromBigEndian(rdata[..2]) == s.typeCovered && rdata[2] as nat == s.algorithm
            && rdata[3] as nat == s.labels && FromBigEndian(rdata[4..8]) == s.originalTtl
            && FromBigEndian(rdata[8..12]) == s.expiration && FromBigEndian(rdata[12..16]) == s.inception
            && FromBigEndian(rdata[16..18]) == s.keyTag
  {
    hide BigEndian, FromBigEndian;
    Powers();
    BigEndianValue(2, s.typeCovered);
    BigEndianValue(4, s.originalTtl);
    BigEndianValue(4, s.expiration);
    BigEndianValue(4, s.inception);
    BigEndianValue(2, s.keyTag);
    var rdata := RrsigHead(s) + tail;
    assert rdata[..2] == BigEndian(2, s.typeCovered) && rdata[4..8] == BigEndian(4, s.originalTtl);
    assert rdata[8..12] == BigEndian(4, s.expiration) && rdata[12..16] == BigEndian(4, s.inception);
    assert rdata[16..18] == BigEndian(2, s.keyTag);
  }

  lemma {:induction false} RrsigHeadSpelled(rdata: Bytes)
    requires ParseRrsig(rdata).Ok?
    ensures var s := ParseRrsig(rdata).value; RrsigFieldsFit(s) && rdata[..RRSIG_FIXED] == RrsigHead(s)
  {
    hide BigEndian, FromBigEndian, ReadName;
    Powers();
    BigEndianSpelling(rdata[..2]);
    BigEndianSpelling(rdata[4..8]);
    BigEndianSpelling(rdata[8..12]);
    BigEndianSpelling(rdata[12..16]);
    BigEndianSpelling(rdata[16..18]);
    assert rdata[..RRSIG_FIXED] == rdata[..2] + [rdata[2], rdata[3]] + rdata[4..8] + rdata[8..12] + rdata[12..16]
                                   + rdata[16..18];
  }

  /** The widths of the fields of that head, in order. */
  const RRSIG_WIDTHS: seq<nat> := [2, 1, 1, 4, 4, 4, 2]

  function Widths(k: nat): nat
    requires k <= |RRSIG_WIDTHS|
  {
    if k == 0 then 0 else Widths(k - 1) + RRSIG_WIDTHS[k - 1]
  }

  /** A refusal names the first field cut short and what was left for it, then the size, then the signer. */
  lemma {:induction false} RrsigRefused(rdata: Bytes)
    ensures |rdata| > MAX_UNIT_BYTES <==> ParseRrsig(rdata) == Err(InFields(OversizeUnit(|rdata|)))
    ensures |rdata| < 18 ==>
              exists k :: 0 <= k < 7 && Widths(k) <= |rdata| < Widths(k) + RRSIG_WIDTHS[k]
                          && ParseRrsig(rdata) == Err(InFields(Truncated(RRSIG_WIDTHS[k], |rdata| - Widths(k))))
    ensures 18 <= |rdata| <= MAX_UNIT_BYTES ==>
              forall e :: ParseRrsig(rdata) == Err(InSigner(e)) <==> ReadName(rdata[18..]) == Err(e)
  {
    hide ReadName;
    assert Widths(1) == 2 && Widths(2) == 3 && Widths(3) == 4;
    assert Widths(4) == 8 && Widths(5) == 12 && Widths(6) == 16;
    if |rdata| < 18 {
      var n := |rdata|;
      var k := if n < 2 then 0 else if n < 3 then 1 else if n < 4 then 2 else if n < 8 then 3
               else if n < 12 then 4 else if n < 16 then 5 else 6;
      assert Widths(k) <= n < Widths(k) + RRSIG_WIDTHS[k];
    }
  }

  /** An RRSIG is its head, its signer and its signature; the first two are the preamble that is signed. */
  lemma {:induction false} RrsigLayout(rdata: Bytes, s: Rrsig)
    ensures ParseRrsig(rdata) == Ok(s) <==>
            && |rdata| <= MAX_UNIT_BYTES && RrsigFieldsFit(s) && ValidName(s.signer)
            && s.preamble == RrsigHead(s) + WriteName(s.signer) && rdata == s.preamble + s.signature
  {
    hide BigEndian, FromBigEndian, ReadName, WriteName, ValidName, RrsigHead;
    if ParseRrsig(rdata) == Ok(s) {
      NameCanonical(rdata[RRSIG_FIXED..]);
      RrsigHeadSpelled(rdata);
      PreamblePartition(rdata);
      assert rdata == rdata[..RRSIG_FIXED] + rdata[RRSIG_FIXED..];
      Assoc(RrsigHead(s), WriteName(s.signer), s.signature);
      assert s.preamble == rdata[..|rdata| - |s.signature|];
      assert s.preamble == RrsigHead(s) + WriteName(s.signer);
    }
    if |rdata| <= MAX_UNIT_BYTES && RrsigFieldsFit(s) && ValidName(s.signer)
       && s.preamble == RrsigHead(s) + WriteName(s.signer) && rdata == s.preamble + s.signature {
      var tail := WriteName(s.signer) + s.signature;
      Assoc(RrsigHead(s), WriteName(s.signer), s.signature);
      RrsigHeadRead(s, tail);
      NamePrefix(s.signer, s.signature);
      assert rdata[..|rdata| - |s.signature|] == s.preamble;
    }
  }
}
