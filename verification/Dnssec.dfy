/**
 Signature and digest checks (onomancy_dnssec/src/crypto.rs, wire/rrsig.rs,
 trust_anchor.rs) over cryptography that is a parameter.
 */
module Dnssec {
  import opened Wrappers
  import opened Wire
  import opened Ordering
  import opened Names
  import opened Records
  import opened Links

  datatype VerifyError =
    | AlgorithmMismatch(key: nat, signature: nat)
    | BadSignature
    | LabelCount(owner: nat, claimed: nat)
    | MalformedKey
    | NotAZoneKey
    | UnsupportedAlgorithm(algorithm: nat)

  /** Raw signature verification by algorithm, and SHA-256. */
  datatype Crypto = Crypto(
    verify: (nat, Bytes, Bytes, Bytes) -> Result<(), VerifyError>,
    sha256: Bytes -> Bytes)

  datatype TrustAnchor = TrustAnchor(algorithm: nat, digest: Bytes, keyTag: nat, zone: Name)

  const SHA256_DIGEST: nat := 2

  /** The octet of the wildcard label. */
  const WILDCARD: Label := [42]

  function DsDigest(c: Crypto, owner: Name, key: Dnskey): Bytes {
    c.sha256(WriteName(owner) + key.rdata)
  }

  predicate DsMatches(c: Crypto, owner: Name, key: Dnskey, ds: Ds) {
    ds.digestType == SHA256_DIGEST && ds.algorithm == key.algorithm && ds.digest == DsDigest(c, owner, key)
  }

  predicate AnchorMatches(c: Crypto, anchor: TrustAnchor, owner: Name, key: Dnskey) {
    anchor.zone == owner && anchor.algorithm == key.algorithm && anchor.digest == DsDigest(c, owner, key)
  }

  /** The name a signature was made over: the owner, or the wildcard its label count points at. */
  function SignedOwner(owner: Name, labels: nat): Result<Name, VerifyError> {
    if labels == |owner| then Ok(owner)
    else if labels < |owner| then Ok([WILDCARD] + owner[|owner| - labels..])
    else Err(LabelCount(|owner|, labels))
  }

  function Rdatas(rrset: seq<Record>): seq<Bytes> {
    if rrset == [] then [] else [rrset[0].rdata] + Rdatas(rrset[1..])
  }

  function RdataSet(rrset: seq<Record>): set<Bytes> {
    set r | r in rrset :: r.rdata
  }

  lemma {:induction false} RdatasAreTheSet(rrset: seq<Record>)
    ensures forall d :: d in Rdatas(rrset) <==> d in RdataSet(rrset)
  {
    if rrset != [] {
      RdatasAreTheSet(rrset[1..]);
      assert rrset == [rrset[0]] + rrset[1..];
      assert RdataSet(rrset) == {rrset[0].rdata} + RdataSet(rrset[1..]);
    }
  }

  /** One RDATA in canonical form: owner, type, class, TTL and the RDATA under its length. */
  function CanonicalEntry(ownerWire: Bytes, rtype: nat, ttl: nat, rdata: Bytes): Bytes {
    var length := if |rdata| < 0x1_0000 then |rdata| else 0xFFFF;
    ownerWire + (BigEndian(2, rtype) + BigEndian(2, CLASS_IN) + BigEndian(4, ttl) + BigEndian(2, length)) + rdata
  }

  /** The RRset part of the signed octets: one entry for each RDATA in canonical order. */
  function CanonicalRrset(ownerWire: Bytes, rtype: nat, ttl: nat, rdatas: seq<Bytes>): Bytes {
    if rdatas == [] then []
    else
      CanonicalEntry(ownerWire, rtype, ttl, rdatas[0]) + CanonicalRrset(ownerWire, rtype, ttl, rdatas[1..])
  }

  /** The octets an RRSIG signs (section 5.3.2 of RFC 4035). */
  function SignedData(link: Link, rrsig: Rrsig): Result<Bytes, VerifyError> {
    var owner :- SignedOwner(link.owner, rrsig.labels);
    var rdatas := SortDistinct(BytesLess, Rdatas(link.rrset));
    Ok(rrsig.preamble + CanonicalRrset(WriteName(owner), link.rtype, rrsig.originalTtl, rdatas))
  }

  /** One signature under one key. */
  function Verify(c: Crypto, rrsig: Rrsig, link: Link, key: Dnskey): Result<(), VerifyError> {
    if !key.IsZoneKey() then Err(NotAZoneKey)
    else if key.algorithm != rrsig.algorithm then Err(AlgorithmMismatch(key.algorithm, rrsig.algorithm))
    else
      var message :- SignedData(link, rrsig);
      c.verify(rrsig.algorithm, key.publicKey, message, rrsig.signature)
  }

  /** An RRset is a set: record order and repetition do not change what is signed. */
  lemma SignedDataIgnoresOrder(a: Link, b: Link, rrsig: Rrsig)
    requires a.owner == b.owner && a.rtype == b.rtype
    requires RdataSet(a.rrset) == RdataSet(b.rrset)
    ensures SignedData(a, rrsig) == SignedData(b, rrsig)
  {
    BytesOrder();
    RdatasAreTheSet(a.rrset);
    RdatasAreTheSet(b.rrset);
    SortDistinctBySet(BytesLess, Rdatas(a.rrset), Rdatas(b.rrset));
  }


  ghost predicate Framable(rdatas: seq<Bytes>) {
    forall d | d in rdatas :: |d| < 0x1_0000
  }

  /** The canonical form spells its RDATA list: each entry is delimited by its own length. */
  lemma {:induction false} CanonicalRrsetInjective(wire: Bytes, rtype: nat, ttl: nat, a: seq<Bytes>, b: seq<Bytes>)
    requires Framable(a) && Framable(b)
    requires CanonicalRrset(wire, rtype, ttl, a) == CanonicalRrset(wire, rtype, ttl, b)
    ensures a == b
  {
    hide BigEndian;
    if a != [] && b != [] {
      EntryInjective(wire, rtype, ttl, a[0], CanonicalRrset(wire, rtype, ttl, a[1..]),
                     b[0], CanonicalRrset(wire, rtype, ttl, b[1..]));
      CanonicalRrsetInjective(wire, rtype, ttl, a[1..], b[1..]);
      assert a == [a[0]] + a[1..] && b == [b[0]] + b[1..];
    }
  }

  lemma {:induction false} EntryInjective(wire: Bytes, rtype: nat, ttl: nat, x: Bytes, tailX: Bytes, y: Bytes,
                                          tailY: Bytes)
    requires |x| < 0x1_0000 && |y| < 0x1_0000
    requires CanonicalEntry(wire, rtype, ttl, x) + tailX == CanonicalEntry(wire, rtype, ttl, y) + tailY
    ensures x == y && tailX == tailY
  {
    hide BigEndian;
    var left, right := CanonicalEntry(wire, rtype, ttl, x) + tailX, CanonicalEntry(wire, rtype, ttl, y) + tailY;
    var at := |wire| + 8;
    assert left[at..at + 2] == BigEndian(2, |x|) && right[at..at + 2] == BigEndian(2, |y|);
    Powers();
    BigEndianValue(2, |x|);
    BigEndianValue(2, |y|);
    assert left[at + 2..at + 2 + |x|] == x && right[at + 2..at + 2 + |y|] == y;
    assert left[at + 2 + |x|..] == tailX && right[at + 2 + |y|..] == tailY;
  }

  /**
   What is signed is the RRset as a set and nothing less: under one RRSIG, two links at one owner
   of one type have the same signed octets exactly when they hold the same RDATA.
   */
  lemma SignedDataIsTheSet(a: Link, b: Link, rrsig: Rrsig)
    requires a.owner == b.owner && a.rtype == b.rtype && rrsig.labels <= |a.owner|
    requires forall r | r in a.rrset + b.rrset :: |r.rdata| < 0x1_0000
    ensures SignedData(a, rrsig) == SignedData(b, rrsig) <==> RdataSet(a.rrset) == RdataSet(b.rrset)
  {
    hide CanonicalRrset, StrictTotal, BytesLess;
    if RdataSet(a.rrset) == RdataSet(b.rrset) {
      SignedDataIgnoresOrder(a, b, rrsig);
    }
    if SignedData(a, rrsig) == SignedData(b, rrsig) {
      BytesOrder();
      RdatasAreTheSet(a.rrset);
      RdatasAreTheSet(b.rrset);
      var x, y := SortDistinct(BytesLess, Rdatas(a.rrset)), SortDistinct(BytesLess, Rdatas(b.rrset));
      RdatasFramable(a, b);
      var wire := WriteName(SignedOwner(a.owner, rrsig.labels).value);
      assert SignedData(a, rrsig).value[|rrsig.preamble|..] == CanonicalRrset(wire, a.rtype, rrsig.originalTtl, x);
      assert SignedData(b, rrsig).value[|rrsig.preamble|..] == CanonicalRrset(wire, a.rtype, rrsig.originalTtl, y);
      CanonicalRrsetInjective(wire, a.rtype, rrsig.originalTtl, x, y);
      SortDistinctBySet(BytesLess, Rdatas(a.rrset), Rdatas(b.rrset));
    }
  }

  lemma RdatasFramable(a: Link, b: Link)
    requires forall r | r in a.rrset + b.rrset :: |r.rdata| < 0x1_0000
    ensures Framable(SortDistinct(BytesLess, Rdatas(a.rrset))) && Framable(SortDistinct(BytesLess, Rdatas(b.rrset)))
  {
    RdatasAreTheSet(a.rrset);
    RdatasAreTheSet(b.rrset);
    assert forall r | r in a.rrset || r in b.rrset :: r in a.rrset + b.rrset;
  }

  // ----- the octets, field by field -----

  /** The name a signature with this label count is over: the owner, or `*` and the owner's last labels. */
  ghost predicate IsSignedName(owner: Name, labels: nat, name: Name) {
    && labels <= |owner|
    && if labels == |owner| then name == owner
       else exists above: Name, last: Name :: owner == above + last && |last| == labels && name == [[42]] + last
  }

  /** One record in canonical form (section 6.2 of RFC 4034), by the position of its fields. */
  ghost predicate IsEntry(entry: Bytes, name: Name, rtype: nat, ttl: nat, rdata: Bytes) {
    var at := |WriteName(name)|;
    && |entry| == at + 10 + |rdata|
    && entry[..at] == WriteName(name)
    && FromBigEndian(entry[at..at + 2]) == rtype
    && FromBigEndian(entry[at + 2..at + 4]) == 1
    && FromBigEndian(entry[at + 4..at + 8]) == ttl
    && FromBigEndian(entry[at + 8..at + 10]) == |rdata|
    && entry[at + 10..] == rdata
  }

  /** Each comes before the next as unsigned octets, so none repeats. */
  ghost predicate Ascending(rdatas: seq<Bytes>) {
    forall i, k | 0 <= i < k < |rdatas| :: Precedes(rdatas[i], rdatas[k])
  }

  lemma {:induction false} EntryFields(name: Name, rtype: nat, ttl: nat, rdata: Bytes)
    requires rtype < 0x1_0000 && ttl < 0x1_0000_0000 && |rdata| < 0x1_0000
    ensures IsEntry(CanonicalEntry(WriteName(name), rtype, ttl, rdata), name, rtype, ttl, rdata)
  {
    hide BigEndian, FromBigEndian, WriteName;
    Powers();
    BigEndianValue(2, rtype);
    BigEndianValue(2, 1);
    BigEndianValue(4, ttl);
    BigEndianValue(2, |rdata|);
    var entry, at := CanonicalEntry(WriteName(name), rtype, ttl, rdata), |WriteName(name)|;
    assert entry[..at] == WriteName(name) && entry[at..at + 2] == BigEndian(2, rtype);
    assert entry[at + 2..at + 4] == BigEndian(2, 1) && entry[at + 4..at + 8] == BigEndian(4, ttl);
    assert entry[at + 8..at + 10] == BigEndian(2, |rdata|) && entry[at + 10..] == rdata;
  }

  /** The entries of an RRset, one for each RDATA. */
  lemma {:induction false} RrsetEntries(name: Name, rtype: nat, ttl: nat,
                                        rdatas: seq<Bytes>) returns (entries: seq<Bytes>)
    requires rtype < 0x1_0000 && ttl < 0x1_0000_0000 && Framable(rdatas)
    ensures |entries| == |rdatas| && Joined(entries) == CanonicalRrset(WriteName(name), rtype, ttl, rdatas)
    ensures forall i | 0 <= i < |rdatas| :: IsEntry(entries[i], name, rtype, ttl, rdatas[i])
  {
    hide IsEntry, CanonicalEntry, WriteName;
    if rdatas == [] {
      entries := [];
    } else {
      assert rdatas[0] in rdatas;
      EntryFields(name, rtype, ttl, rdatas[0]);
      var rest := RrsetEntries(name, rtype, ttl, rdatas[1..]);
      entries := [CanonicalEntry(WriteName(name), rtype, ttl, rdatas[0])] + rest;
      assert entries[1..] == rest;
      forall i | 0 <= i < |rdatas| ensures IsEntry(entries[i], name, rtype, ttl, rdatas[i]) {
        if i > 0 { assert entries[i] == rest[i - 1] && rdatas[i] == rdatas[1..][i - 1]; }
      }
    }
  }

  lemma {:induction false} SignedNameExactly(owner: Name, labels: nat)
    ensures SignedOwner(owner, labels).Ok? <==> labels <= |owner|
    ensures SignedOwner(owner, labels).Ok? ==> IsSignedName(owner, labels, SignedOwner(owner, labels).value)
    ensures SignedOwner(owner, labels).Err? ==> SignedOwner(owner, labels).error == LabelCount(|owner|, labels)
  {
    if labels < |owner| {
      assert owner == owner[..|owner| - labels] + owner[|owner| - labels..];
    }
  }

  /**
   The octets an RRSIG signs: its own preamble, then one entry for each RDATA of the link in
   ascending order, each under the name the signature is over, the link's type, class IN and the
   signature's original TTL. There are none exactly when the label count exceeds the owner's.
   */
  lemma {:induction false} SignedOctets(link: Link, rrsig: Rrsig)
    returns (name: Name, rdatas: seq<Bytes>, entries: seq<Bytes>)
    requires link.rtype < 0x1_0000 && rrsig.originalTtl < 0x1_0000_0000
    requires forall r | r in link.rrset :: |r.rdata| < 0x1_0000
    ensures SignedData(link, rrsig).Ok? <==> rrsig.labels <= |link.owner|
    ensures SignedData(link, rrsig).Ok? ==>
              && IsSignedName(link.owner, rrsig.labels, name)
              && Ascending(rdatas) && (forall d :: d in rdatas <==> exists r :: r in link.rrset && r.rdata == d)
              && |entries| == |rdatas|
              && (forall i | 0 <= i < |rdatas| ::
                    IsEntry(entries[i], name, link.rtype, rrsig.originalTtl, rdatas[i]))
              && SignedData(link, rrsig) == Ok(rrsig.preamble + Joined(entries))
  {
    hide CanonicalRrset, IsEntry, StrictTotal, BytesLess, IsSignedName, SignedOwner, Precedes;
    SignedNameExactly(link.owner, rrsig.labels);
    name, rdatas, entries := [], [], [];
    if rrsig.labels <= |link.owner| {
      name := SignedOwner(link.owner, rrsig.labels).value;
      rdatas := SortDistinct(BytesLess, Rdatas(link.rrset));
      BytesOrder();
      RdatasAreTheSet(link.rrset);
      assert forall d :: d in RdataSet(link.rrset) <==> exists r :: r in link.rrset && r.rdata == d;
      SortDistinctSorted(BytesLess, Rdatas(link.rrset));
      RdatasFramable(link, link);
      entries := RrsetEntries(name, link.rtype, rrsig.originalTtl, rdatas);
      forall i, k | 0 <= i < k < |rdatas| ensures Precedes(rdatas[i], rdatas[k]) {
        BytesLessMeans(rdatas[i], rdatas[k]);
      }
    }
  }

  /** These are the octets the signature is over, by the position of every field. */
  ghost predicate AreSigned(link: Link, rrsig: Rrsig, octets: Bytes) {
    exists name, rdatas, entries ::
      && IsSignedName(link.owner, rrsig.labels, name)
      && Ascending(rdatas) && (forall d :: d in rdatas <==> exists r :: r in link.rrset && r.rdata == d)
      && AreEntries(entries, name, link.rtype, rrsig.originalTtl, rdatas)
      && octets == rrsig.preamble + Joined(entries)
  }

  ghost predicate AreEntries(entries: seq<Bytes>, name: Name, rtype: nat, ttl: nat, rdatas: seq<Bytes>) {
    |entries| == |rdatas| && forall i | 0 <= i < |rdatas| :: IsEntry(entries[i], name, rtype, ttl, rdatas[i])
  }

  ghost predicate Representable(link: Link, rrsig: Rrsig) {
    && link.rtype < 0x1_0000 && rrsig.originalTtl < 0x1_0000_0000
    && forall r | r in link.rrset :: |r.rdata| < 0x1_0000
  }

  lemma {:induction false} EntryIsCanonical(entry: Bytes, name: Name, rtype: nat, ttl: nat, rdata: Bytes)
    requires |rdata| < 0x1_0000 && IsEntry(entry, name, rtype, ttl, rdata)
    ensures entry == CanonicalEntry(WriteName(name), rtype, ttl, rdata)
  {
    hide BigEndian, FromBigEndian, WriteName;
    var at := |WriteName(name)|;
    BigEndianSpelling(entry[at..at + 2]);
    BigEndianSpelling(entry[at + 2..at + 4]);
    BigEndianSpelling(entry[at + 4..at + 8]);
    BigEndianSpelling(entry[at + 8..at + 10]);
    assert entry == entry[..at] + (entry[at..at + 2] + entry[at + 2..at + 4] + entry[at + 4..at + 8]
                                   + entry[at + 8..at + 10]) + entry[at + 10..];
  }

  lemma {:induction false} EntriesAreCanonical(entries: seq<Bytes>, name: Name, rtype: nat, ttl: nat,
                                               rdatas: seq<Bytes>)
    requires Framable(rdatas) && AreEntries(entries, name, rtype, ttl, rdatas)
    ensures Joined(entries) == CanonicalRrset(WriteName(name), rtype, ttl, rdatas)
  {
    hide IsEntry, CanonicalEntry, WriteName;
    if rdatas != [] {
      assert rdatas[0] in rdatas;
      EntryIsCanonical(entries[0], name, rtype, ttl, rdatas[0]);
      forall i | 0 <= i < |rdatas[1..]| ensures IsEntry(entries[1..][i], name, rtype, ttl, rdatas[1..][i]) {
        assert entries[1..][i] == entries[i + 1] && rdatas[1..][i] == rdatas[i + 1];
      }
      EntriesAreCanonical(entries[1..], name, rtype, ttl, rdatas[1..]);
    }
  }

  lemma {:induction false} SignedNameIsOne(owner: Name, labels: nat, name: Name)
    requires IsSignedName(owner, labels, name)
    ensures SignedOwner(owner, labels) == Ok(name)
  {
    if labels < |owner| {
      var above: Name, last: Name :| owner == above + last && |last| == labels && name == [[42]] + last;
      assert owner[|owner| - labels..] == last;
    }
  }

  /** The octets signed are exactly those, and there are none exactly when no name fits the label count. */
  lemma {:induction false} SignedDataExactly(link: Link, rrsig: Rrsig, octets: Bytes)
    requires Representable(link, rrsig)
    ensures SignedData(link, rrsig) == Ok(octets) <==> AreSigned(link, rrsig, octets)
  {
    hide CanonicalRrset, IsEntry, StrictTotal, BytesLess, IsSignedName, SignedOwner, Precedes, Ascending;
    if SignedData(link, rrsig) == Ok(octets) {
      var name, rdatas, entries := SignedOctets(link, rrsig);
      assert AreEntries(entries, name, link.rtype, rrsig.originalTtl, rdatas);
    }
    if AreSigned(link, rrsig, octets) {
      var name, rdatas, entries :|
        && IsSignedName(link.owner, rrsig.labels, name)
        && Ascending(rdatas) && (forall d :: d in rdatas <==> exists r :: r in link.rrset && r.rdata == d)
        && AreEntries(entries, name, link.rtype, rrsig.originalTtl, rdatas)
        && octets == rrsig.preamble + Joined(entries);
      SignedNameIsOne(link.owner, rrsig.labels, name);
      AscendingIsSorted(link.rrset, rdatas);
      forall d | d in rdatas ensures |d| < 0x1_0000 {
        var r :| r in link.rrset && r.rdata == d;
      }
      EntriesAreCanonical(entries, name, link.rtype, rrsig.originalTtl, rdatas);
    }
  }

  lemma {:induction false} AscendingIsSorted(rrset: seq<Record>, rdatas: seq<Bytes>)
    requires Ascending(rdatas) && forall d :: d in rdatas <==> exists r :: r in rrset && r.rdata == d
    ensures rdatas == SortDistinct(BytesLess, Rdatas(rrset))
  {
    hide BytesLess, StrictTotal, Precedes;
    BytesOrder();
    RdatasAreTheSet(rrset);
    assert forall d :: d in RdataSet(rrset) <==> exists r :: r in rrset && r.rdata == d;
    SortDistinctSorted(BytesLess, Rdatas(rrset));
    forall i, k | 0 <= i < k < |rdatas| ensures BytesLess(rdatas[i], rdatas[k]) {
      BytesLessMeans(rdatas[i], rdatas[k]);
    }
    SortedUnique(BytesLess, rdatas, SortDistinct(BytesLess, Rdatas(rrset)));
  }

  // ----- checks, on the octets -----

  /**
   One signature under one key: a zone key of the signature's algorithm, over whose public octets
   the check accepts the signature of exactly the octets above.
   */
  lemma {:induction false} VerifyExactly(c: Crypto, rrsig: Rrsig, link: Link, key: Dnskey)
    requires Representable(link, rrsig)
    ensures Verify(c, rrsig, link, key).Ok? <==>
            && key.flags % 512 >= 256 && key.algorithm == rrsig.algorithm
            && exists octets :: AreSigned(link, rrsig, octets)
                                && c.verify(rrsig.algorithm, key.publicKey, octets, rrsig.signature).Ok?
    ensures key.flags % 512 < 256 ==> Verify(c, rrsig, link, key) == Err(NotAZoneKey)
    ensures key.flags % 512 >= 256 && key.algorithm != rrsig.algorithm ==>
              Verify(c, rrsig, link, key) == Err(AlgorithmMismatch(key.algorithm, rrsig.algorithm))
  {
    hide AreSigned, SignedData;
    ZoneFlag(key);
    forall octets ensures SignedData(link, rrsig) == Ok(octets) <==> AreSigned(link, rrsig, octets) {
      SignedDataExactly(link, rrsig, octets);
    }
  }

  /**
   A DS commits to a key when it names the key's algorithm and digest type 2, and holds the SHA-256 of
   the owner's wire form followed by the key's RDATA (section 5.1.4 of RFC 4034).
   */
  lemma {:induction false} DsMatchesExactly(c: Crypto, owner: Name, keyRdata: Bytes, dsRdata: Bytes)
    requires ParseDnskey(keyRdata).Some? && ParseDs(dsRdata).Some?
    ensures DsMatches(c, owner, ParseDnskey(keyRdata).value, ParseDs(dsRdata).value) <==>
            dsRdata[2..] == [keyRdata[3], 2] + c.sha256(WriteName(owner) + keyRdata)
  {
    hide WriteName;
    assert dsRdata[2..] == [dsRdata[2], dsRdata[3]] + dsRdata[4..];
    var digest := c.sha256(WriteName(owner) + keyRdata);
    if dsRdata[2..] == [keyRdata[3], 2] + digest {
      assert dsRdata[2] == dsRdata[2..][0] && dsRdata[3] == dsRdata[2..][1];
      assert dsRdata[4..] == dsRdata[2..][2..] == digest;
    }
  }

  /** A trust anchor is a DS with its zone: it commits to a key as that DS record would. */
  lemma {:induction false} AnchorMatchesExactly(c: Crypto, anchor: TrustAnchor, owner: Name, keyRdata: Bytes)
    requires ParseDnskey(keyRdata).Some?
    ensures AnchorMatches(c, anchor, owner, ParseDnskey(keyRdata).value) <==>
            && anchor.zone == owner && anchor.algorithm == keyRdata[3] as nat
            && anchor.digest == c.sha256(WriteName(owner) + keyRdata)
  {
  }
}
