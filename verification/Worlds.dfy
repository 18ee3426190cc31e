/**
 Faithful worlds exist: for any tree of zone cuts and any CNAME from one name to another
 there is a judge and a resolver that meet every hypothesis of the end-to-end theorem.
 */
module Worlds {
  import opened Wrappers
  import opened Wire
  import opened Names
  import opened Records
  import opened Links
  import opened Dnssec
  import opened Validator
  import opened Builder
  import opened Agreement
  import opened Completeness

  /** A zone key of algorithm 8 with an empty public key, and a DS that commits to it. */
  const KEY_RDATA: Bytes := [1, 0, 3, 8]
  const DS_RDATA: Bytes := [0, 0, 8, 2, 0]
  const KEY: Dnskey := Dnskey(256, 8, [], KEY_RDATA)

  /** TTL, window and key tag, all zero. */
  const ZEROS: Bytes := [0, 0, 0, 0, 0, 0, 0, 0, 0, 0, 0, 0, 0, 0]

  function Credulous(): Judge {
    Judge(Crypto((a: nat, k: Bytes, m: Bytes, s: Bytes) => Ok(()), (b: Bytes) => [0]), (k: Bytes) => true,
          [TrustAnchor(8, [0], 0, ROOT)])
  }

  function SigRdata(rtype: nat, labels: nat, signer: Name): Bytes {
    BigEndian(2, rtype) + [8, (labels % 256) as byte] + ZEROS + WriteName(signer)
  }

  /** One record and the signature over it. */
  function Pair(owner: Name, rtype: nat, rdata: Bytes, signer: Name): seq<Record> {
    [Record(owner, rtype, CLASS_IN, 0, rdata), Record(owner, RRSIG, CLASS_IN, 0, SigRdata(rtype, |owner|, signer))]
  }

  function Answer(cuts: set<Name>, owner: Name, target: Name, q: Question): seq<Record> {
    if q.rtype == DNSKEY && q.name in cuts then Pair(q.name, DNSKEY, KEY_RDATA, q.name)
    else if q.rtype == DS && q.name in cuts && q.name != ROOT then
      Pair(q.name, DS, DS_RDATA, Apex(cuts, q.name[1..]))
    else if q.rtype == TXT then
      Pair(owner, CNAME, WriteName(target), Apex(cuts, owner)) + Pair(target, TXT, [0], Apex(cuts, target))
    else []
  }

  function WorldOf(cuts: set<Name>, owner: Name, target: Name): World {
    World(cuts, (q: Question) => Answer(cuts, owner, target, q), 0, [owner, target])
  }

  lemma {:induction false} ZeroValue(b: Bytes)
    requires forall i | 0 <= i < |b| :: b[i] == 0
    ensures FromBigEndian(b) == 0
  {
    if b != [] {
      ZeroValue(b[..|b| - 1]);
    }
  }

  lemma SigParses(rtype: nat, labels: nat, signer: Name)
    requires rtype < 0x1_0000 && labels < 256 && ValidName(signer)
    ensures var rdata := SigRdata(rtype, labels, signer);
            |rdata| < 0x1_0000 && ParseRrsig(rdata) == Ok(Rrsig(rtype, 8, labels, 0, 0, 0, 0, signer, rdata, []))
  {
    hide ReadName, WriteName, ValidName, FromBigEndian, BigEndian;
    var rdata := SigRdata(rtype, labels, signer);
    WireLenBounded(signer);
    assert rdata[..2] == BigEndian(2, rtype);
    Powers();
    BigEndianValue(2, rtype);
    assert rdata[4..18] == ZEROS;
    assert rdata[4..8] == ZEROS[..4] && rdata[8..12] == ZEROS[4..8];
    assert rdata[12..16] == ZEROS[8..12] && rdata[16..18] == ZEROS[12..];
    ZeroValue(rdata[4..8]);
    ZeroValue(rdata[8..12]);
    ZeroValue(rdata[12..16]);
    ZeroValue(rdata[16..18]);
    assert rdata[RRSIG_FIXED..] == WriteName(signer) + [];
    NamePrefix(signer, []);
    assert rdata[..|rdata|] == rdata;
  }

  lemma WireLenBounded(n: Name)
    requires ValidName(n)
    ensures |WriteName(n)| <= 255 && |n| < 255
  {
  }

  lemma {:induction false} DataAppend(a: seq<Record>, b: seq<Record>, owner: Name, rtype: nat)
    ensures DataOf(a + b, owner, rtype) == DataOf(a, owner, rtype) + DataOf(b, owner, rtype)
  {
    hide IsData;
    if a == [] {
      assert a + b == b;
    } else {
      assert (a + b)[1..] == a[1..] + b && (a + b)[0] == a[0];
      DataAppend(a[1..], b, owner, rtype);
      var first := if IsData(a[0], owner, rtype) then [a[0]] else [];
      assert first + (DataOf(a[1..], owner, rtype) + DataOf(b, owner, rtype))
             == first + DataOf(a[1..], owner, rtype) + DataOf(b, owner, rtype);
    }
  }

  lemma {:induction false} SignaturesAppend(a: seq<Record>, b: seq<Record>, owner: Name, rtype: nat)
    ensures SignaturesOf(a + b, owner, rtype) == SignaturesOf(a, owner, rtype) + SignaturesOf(b, owner, rtype)
  {
    hide IsSignature;
    if a == [] {
      assert a + b == b;
    } else {
      assert (a + b)[1..] == a[1..] + b && (a + b)[0] == a[0];
      SignaturesAppend(a[1..], b, owner, rtype);
      var first := if IsSignature(a[0], owner, rtype) then [a[0]] else [];
      assert first + (SignaturesOf(a[1..], owner, rtype) + SignaturesOf(b, owner, rtype))
             == first + SignaturesOf(a[1..], owner, rtype) + SignaturesOf(b, owner, rtype);
    }
  }

  lemma OneRecord(r: Record, owner: Name, rtype: nat)
    ensures DataOf([r], owner, rtype) == if IsData(r, owner, rtype) then [r] else []
    ensures SignaturesOf([r], owner, rtype) == if IsSignature(r, owner, rtype) then [r] else []
  {
    assert [r][1..] == [];
  }

  lemma {:induction false} PairParts(owner: Name, rtype: nat, rdata: Bytes, signer: Name)
    requires ValidName(owner) && ValidName(signer) && rtype < 0x1_0000 && rtype != RRSIG && |rdata| < 0x1_0000
    ensures ValidAnswers(Pair(owner, rtype, rdata, signer))
    ensures forall name, t :: DataOf(Pair(owner, rtype, rdata, signer), name, t) ==
              (if name == owner && t == rtype then [Pair(owner, rtype, rdata, signer)[0]] else [])
              + if name == owner && t == RRSIG then [Pair(owner, rtype, rdata, signer)[1]] else []
    ensures forall name, t :: SignaturesOf(Pair(owner, rtype, rdata, signer), name, t) ==
              if name == owner && t == rtype then [Pair(owner, rtype, rdata, signer)[1]] else []
  {
    hide ParseRrsig, SigRdata, ValidName, DataOf, SignaturesOf;
    var pair := Pair(owner, rtype, rdata, signer);
    WireLenBounded(owner);
    SigParses(rtype, |owner|, signer);
    CoveredTypeAgrees(pair[1]);
    assert CoveredType(pair[1]) == Some(rtype) && CoveredType(pair[0]) == None;
    assert pair == [pair[0]] + [pair[1]];
    forall name, t
      ensures DataOf(pair, name, t) == DataOf([pair[0]], name, t) + DataOf([pair[1]], name, t)
      ensures SignaturesOf(pair, name, t) == SignaturesOf([pair[0]], name, t) + SignaturesOf([pair[1]], name, t)
      ensures DataOf([pair[0]], name, t) == if IsData(pair[0], name, t) then [pair[0]] else []
      ensures DataOf([pair[1]], name, t) == if IsData(pair[1], name, t) then [pair[1]] else []
      ensures SignaturesOf([pair[0]], name, t) == []
      ensures SignaturesOf([pair[1]], name, t) == if IsSignature(pair[1], name, t) then [pair[1]] else []
    {
      DataAppend([pair[0]], [pair[1]], name, t);
      SignaturesAppend([pair[0]], [pair[1]], name, t);
      OneRecord(pair[0], name, t);
      OneRecord(pair[1], name, t);
    }
  }

  /** A record and its signature are a signed RRset, in any answer that holds nothing else at that owner and type. */
  lemma {:induction false} PairSigned(w: World, answers: seq<Record>, owner: Name, rtype: nat, rdata: Bytes, zone: Name)
    requires ValidName(owner) && ValidName(zone) && rtype < 0x1_0000 && rtype != RRSIG && |rdata| < 0x1_0000
    requires ValidAnswers(answers) && w.now == 0 && KeysAt(w, zone) == [KEY]
    requires DataOf(answers, owner, rtype) == [Pair(owner, rtype, rdata, zone)[0]]
    requires SignaturesOf(answers, owner, rtype) == [Pair(owner, rtype, rdata, zone)[1]]
    ensures Signed(Credulous(), w, answers, owner, rtype, zone)
    ensures forall s | s in LinkIn(answers, owner, rtype).signatures :: s.labels == |owner|
  {
    hide ParseRrsig, SigRdata, ValidName, ValidAnswers, DataOf, SignaturesOf, KeysAt, CanonicalRrset;
    WireLenBounded(owner);
    SigParses(rtype, |owner|, zone);
    var link := LinkIn(answers, owner, rtype);
    var rrsig := ParseRrsig(SigRdata(rtype, |owner|, zone)).value;
    assert link.signatures == [rrsig];
    assert SignedOwner(owner, |owner|) == Ok(owner);
    assert Verify(Credulous().crypto, rrsig, link, KEY).Ok?;
    assert KEY in [KEY] && Usable(Credulous().crypto, zone, [KEY], link, rrsig);
    assert rrsig in link.signatures;
  }

  lemma KeyParses()
    ensures ParseDnskey(KEY_RDATA) == Some(KEY) && ParseDs(DS_RDATA) == Some(Ds(0, 8, 2, [0]))
  {
    assert KEY_RDATA[..2] == [1, 0] && KEY_RDATA[4..] == [];
    assert [1 as byte, 0][..1] == [1] && [1 as byte][..0] == [];
    assert FromBigEndian([1]) == 1 && FromBigEndian([1, 0]) == 256;
    assert DS_RDATA[..2] == [0, 0] && DS_RDATA[4..] == [0];
    ZeroValue([0, 0]);
  }

  lemma {:induction false} ZoneKeys(cuts: set<Name>, owner: Name, target: Name, zone: Name)
    requires zone in cuts && forall name | name in cuts :: ValidName(name)
    ensures var w := WorldOf(cuts, owner, target);
            && DataOf(KeyAnswer(w, zone), zone, DNSKEY) == [Pair(zone, DNSKEY, KEY_RDATA, zone)[0]]
            && SignaturesOf(KeyAnswer(w, zone), zone, DNSKEY) == [Pair(zone, DNSKEY, KEY_RDATA, zone)[1]]
            && ParseAll(ParseDnskey, DataOf(KeyAnswer(w, zone), zone, DNSKEY)) == Some([KEY])
            && KeysAt(w, zone) == [KEY] && Signed(Credulous(), w, KeyAnswer(w, zone), zone, DNSKEY, zone)
  {
    hide ValidName, SigRdata, ParseDnskey, ValidAnswers, Signed, DataOf, SignaturesOf;
    var w := WorldOf(cuts, owner, target);
    KeyParses();
    PairParts(zone, DNSKEY, KEY_RDATA, zone);
    assert KeyAnswer(w, zone) == Pair(zone, DNSKEY, KEY_RDATA, zone);
    PairSigned(w, KeyAnswer(w, zone), zone, DNSKEY, KEY_RDATA, zone);
  }

  lemma {:induction false} ZoneDelegation(cuts: set<Name>, owner: Name, target: Name, zone: Name)
    requires ROOT in cuts && zone in cuts && zone != ROOT && forall name | name in cuts :: ValidName(name)
    ensures var w := WorldOf(cuts, owner, target);
            && ParseAll(ParseDs, DataOf(DsAnswer(w, zone), zone, DS)).Some?
            && DsMatched(Credulous(), zone, KeysAt(w, zone), DsAt(w, zone))
            && Signed(Credulous(), w, DsAnswer(w, zone), zone, DS, Apex(cuts, zone[1..]))
  {
    hide ValidName, SigRdata, ParseDs, ValidAnswers, Signed, DataOf, SignaturesOf, Apex, KeysAt;
    var w := WorldOf(cuts, owner, target);
    var parent := Apex(cuts, zone[1..]);
    KeyParses();
    ApexIsCut(cuts, zone[1..]);
    ZoneKeys(cuts, owner, target, zone);
    ZoneKeys(cuts, owner, target, parent);
    PairParts(zone, DS, DS_RDATA, parent);
    assert DsAnswer(w, zone) == Pair(zone, DS, DS_RDATA, parent);
    PairSigned(w, DsAnswer(w, zone), zone, DS, DS_RDATA, parent);
    assert DsAt(w, zone) == [Ds(0, 8, 2, [0])];
    assert KEY in [KEY] && Ds(0, 8, 2, [0]) in [Ds(0, 8, 2, [0])];
    assert DsMatches(Credulous().crypto, zone, KEY, Ds(0, 8, 2, [0]));
  }

  lemma ZonesAreFaithful(cuts: set<Name>, owner: Name, target: Name)
    requires ROOT in cuts && forall name | name in cuts :: ValidName(name)
    ensures FaithfulZones(Credulous(), WorldOf(cuts, owner, target))
  {
    hide ValidName, SigRdata, Signed, DataOf, SignaturesOf, Apex, KeysAt, DsAt, DsMatched;
    var w := WorldOf(cuts, owner, target);
    ZoneKeys(cuts, owner, target, ROOT);
    assert Anchored(Credulous(), ROOT, [KEY]) by {
      var anchor := TrustAnchor(8, [0], 0, ROOT);
      assert anchor in Credulous().anchors && KEY in [KEY] && AnchorMatches(Credulous().crypto, anchor, ROOT, KEY);
    }
    forall zone | zone in w.cuts
      ensures ParseAll(ParseDnskey, DataOf(KeyAnswer(w, zone), zone, DNSKEY)).Some?
      ensures Signed(Credulous(), w, KeyAnswer(w, zone), zone, DNSKEY, zone)
    {
      ZoneKeys(cuts, owner, target, zone);
    }
    forall zone | zone in w.cuts && zone != ROOT
      ensures ParseAll(ParseDs, DataOf(DsAnswer(w, zone), zone, DS)).Some?
      ensures DsMatched(Credulous(), zone, KeysAt(w, zone), DsAt(w, zone))
      ensures Signed(Credulous(), w, DsAnswer(w, zone), zone, DS, Apex(w.cuts, zone[1..]))
    {
      ZoneDelegation(cuts, owner, target, zone);
    }
    forall name: Name | name !in w.cuts ensures !HasData(DsAnswer(w, name), name, DS) {
      assert DsAnswer(w, name) == [];
    }
  }

  /** What the leaf answer holds at each end of the alias. */
  lemma {:induction false} LeafParts(owner: Name, target: Name, above: Name, beside: Name)
    requires ValidName(owner) && ValidName(target) && ValidName(above) && ValidName(beside) && owner != target
    ensures var alias, leaf := Pair(owner, CNAME, WriteName(target), above), Pair(target, TXT, [0], beside);
            var answer := alias + leaf;
            && ValidAnswers(answer)
            && DataOf(answer, owner, CNAME) == [alias[0]] && SignaturesOf(answer, owner, CNAME) == [alias[1]]
            && DataOf(answer, target, TXT) == [leaf[0]] && SignaturesOf(answer, target, TXT) == [leaf[1]]
            && !HasData(answer, owner, TXT)
  {
    hide ValidName, SigRdata, DataOf, SignaturesOf, WriteName, ValidRecord;
    var alias, leaf := Pair(owner, CNAME, WriteName(target), above), Pair(target, TXT, [0], beside);
    WireLenBounded(target);
    PairParts(owner, CNAME, WriteName(target), above);
    PairParts(target, TXT, [0], beside);
    DataAppend(alias, leaf, owner, CNAME);
    SignaturesAppend(alias, leaf, owner, CNAME);
    DataAppend(alias, leaf, target, TXT);
    SignaturesAppend(alias, leaf, target, TXT);
  }

  lemma LeafPairs(cuts: set<Name>, owner: Name, target: Name)
    requires ROOT in cuts && forall name | name in cuts :: ValidName(name)
    requires ValidName(owner) && ValidName(target) && owner != target
    ensures var w := WorldOf(cuts, owner, target);
            && DataOf(LeafAnswer(w), owner, CNAME) == [Record(owner, CNAME, CLASS_IN, 0, WriteName(target))]
            && Signed(Credulous(), w, LeafAnswer(w), owner, CNAME, Apex(cuts, owner))
            && Signed(Credulous(), w, LeafAnswer(w), target, TXT, Apex(cuts, target))
            && (forall s | s in LinkIn(LeafAnswer(w), target, TXT).signatures :: s.labels == |target|)
            && !HasData(LeafAnswer(w), owner, TXT)
  {
    hide ValidName, SigRdata, Signed, DataOf, SignaturesOf, Apex, KeysAt, WriteName, ValidAnswers, LinkIn, HasData;
    var w := WorldOf(cuts, owner, target);
    var above, beside := Apex(cuts, owner), Apex(cuts, target);
    ApexIsCut(cuts, owner);
    ApexIsCut(cuts, target);
    ZoneKeys(cuts, owner, target, above);
    ZoneKeys(cuts, owner, target, beside);
    WireLenBounded(target);
    LeafParts(owner, target, above, beside);
    PairSigned(w, LeafAnswer(w), owner, CNAME, WriteName(target), above);
    PairSigned(w, LeafAnswer(w), target, TXT, [0], beside);
  }

  lemma LeafIsFaithful(cuts: set<Name>, owner: Name, target: Name)
    requires ROOT in cuts && forall name | name in cuts :: ValidName(name)
    requires ValidName(owner) && ValidName(target) && owner != target
    ensures FaithfulLeaf(Credulous(), WorldOf(cuts, owner, target))
  {
    hide ValidName, Signed, DataOf, Apex, WriteName, ReadName, LinkIn, HasData, Answer;
    LeafPairs(cuts, owner, target);
    WireLenBounded(target);
    NamePrefix(target, []);
    assert WriteName(target) + [] == WriteName(target);
    assert ParseCname(WriteName(target)) == Some(target);
  }

  /** Every tree of valid zone cuts and every CNAME between valid names has a faithful world. */
  lemma {:induction false} FaithfulWorldsExist(cuts: set<Name>, owner: Name, target: Name) returns (j: Judge, w: World)
    requires ROOT in cuts && forall name | name in cuts :: ValidName(name)
    requires ValidName(owner) && ValidName(target) && owner != target
    ensures Faithful(j, w) && w.cuts == cuts && w.path == [owner, target]
  {
    hide FaithfulZones, FaithfulLeaf, ValidName;
    j, w := Credulous(), WorldOf(cuts, owner, target);
    ZonesAreFaithful(cuts, owner, target);
    LeafIsFaithful(cuts, owner, target);
  }
}
