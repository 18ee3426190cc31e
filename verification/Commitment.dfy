/**
 Which key signs a key set (section 5.2 of RFC 4035). A DS or an anchor commits to a key, and
 that key is to sign the set it stands in. The validator asks for a committed key and for a
 key that signs, not that they be one.
 */
module Commitment {
  import opened Wrappers
  import opened Wire
  import opened Names
  import opened Records
  import opened Links
  import opened Dnssec
  import opened Validator
  import opened Soundness

  type Check = (nat, Bytes, Bytes, Bytes) -> Result<(), VerifyError>

  /** The same judge with another signature check; digests, and so commitments, stay. */
  function With(j: Judge, v: Check): Judge {
    j.(crypto := j.crypto.(verify := v))
  }

  predicate AnchorCommits(j: Judge, owner: Name, key: Dnskey) {
    exists anchor | anchor in j.anchors :: AnchorMatches(j.crypto, anchor, owner, key)
  }

  predicate DsCommits(j: Judge, child: Name, dsSet: seq<Ds>, key: Dnskey) {
    exists ds | ds in dsSet :: DsMatches(j.crypto, child, key, ds)
  }

  function ByAnchor(j: Judge, owner: Name): Dnskey -> bool {
    (key: Dnskey) => AnchorCommits(j, owner, key)
  }

  function ByDs(j: Judge, child: Name, dsSet: seq<Ds>): Dnskey -> bool {
    (key: Dnskey) => DsCommits(j, child, dsSet, key)
  }

  /** This signature verifies under a key of the zone that is committed to. */
  ghost predicate Vouched(c: Crypto, zone: Name, keys: seq<Dnskey>, committed: Dnskey -> bool, link: Link,
                          rrsig: Rrsig)
  {
    rrsig.signer == zone && exists key | key in keys && committed(key) :: Verify(c, rrsig, link, key).Ok?
  }

  /** The rule: a committed key signs the set. */
  ghost predicate CommittedSigns(c: Crypto, zone: Name, keys: seq<Dnskey>, committed: Dnskey -> bool, link: Link) {
    exists rrsig | rrsig in link.signatures :: Vouched(c, zone, keys, committed, link, rrsig)
  }

  /** Nothing but the cryptography stands between this signature, under this key, and acceptance. */
  predicate MayVerify(zone: Name, timely: Rrsig -> bool, link: Link, rrsig: Rrsig, key: Dnskey) {
    && rrsig.signer == zone && timely(rrsig) && rrsig.labels <= |link.owner|
    && key.IsZoneKey() && key.algorithm == rrsig.algorithm
  }

  /** The same key as far as checking a signature goes. */
  predicate SameKey(a: Dnskey, b: Dnskey) {
    a.IsZoneKey() && b.IsZoneKey() && a.algorithm == b.algorithm && a.publicKey == b.publicKey
  }

  /** Each key that a signature could be accepted under is, to the check, a committed key. */
  predicate Covered(zone: Name, keys: seq<Dnskey>, committed: Dnskey -> bool, timely: Rrsig -> bool, link: Link) {
    forall rrsig, key | rrsig in link.signatures && key in keys && MayVerify(zone, timely, link, rrsig, key) ::
      exists k | k in keys && committed(k) :: SameKey(key, k)
  }

  // ----- signatures as the wire gives them -----

  /** Each signature was read from some RDATA. */
  ghost predicate FromWire(link: Link) {
    forall s | s in link.signatures :: exists rdata :: ParseRrsig(rdata) == Ok(s)
  }

  lemma {:induction false} ParsedLinksComeFromWire(b: Bytes)
    requires ParseLink(b).Ok?
    ensures FromWire(ParseLink(b).value)
  {
    hide Gather, ParseRrsig, ValidRecord;
    ParsedLinksAreWellFormed(b);
    GatheredReadings(b);
    var signatures := Gather(b).value.signatures;
    var link := ParseLink(b).value;
    forall s | s in link.signatures ensures exists rdata :: ParseRrsig(rdata) == Ok(s) {
      var i :| 0 <= i < |link.signatures| && link.signatures[i] == s;
      assert signatures[i] in signatures;
      assert ParseRrsig(signatures[i].record.rdata) == Ok(s);
    }
  }

  /** The fields of a parsed link fit the widths that its signed octets give them. */
  lemma {:induction false} ParsedLinksAreRepresentable(b: Bytes, rrsig: Rrsig)
    requires ParseLink(b).Ok? && rrsig in ParseLink(b).value.signatures
    ensures Representable(ParseLink(b).value, rrsig)
  {
    hide ParseRrsig, ParseLink, ValidName;
    ParsedLinksAreWellFormed(b);
    ParsedLinksComeFromWire(b);
    var link := ParseLink(b).value;
    assert link.rrset[0] in link.rrset;
    var rdata :| ParseRrsig(rdata) == Ok(rrsig);
    RrsigLayout(rdata, rrsig);
  }

  lemma {:induction false} GatheredReadings(b: Bytes)
    requires Gather(b).Ok?
    ensures forall s | s in Gather(b).value.signatures :: ParseRrsig(s.record.rdata) == Ok(s.rrsig)
    decreases |b|
  {
    hide ReadRecord, ParseRrsig;
    if b != [] {
      GatheredReadings(ReadRecord(b).value.1);
    }
  }

  lemma FieldsOf(s: Rrsig, rdata: Bytes)
    requires ParseRrsig(rdata) == Ok(s)
    ensures |s.preamble| >= RRSIG_FIXED
    ensures s.labels == s.preamble[3] as nat
    ensures s.expiration == FromBigEndian(s.preamble[8..12]) && s.inception == FromBigEndian(s.preamble[12..16])
  {
    hide ReadName, WriteName, FromBigEndian, ValidName;
    NameCanonical(rdata[RRSIG_FIXED..]);
    assert s.preamble == rdata[..|rdata| - |s.signature|];
    assert s.preamble[3] == rdata[3] && s.preamble[8..12] == rdata[8..12] && s.preamble[12..16] == rdata[12..16];
  }

  /** Signatures over the same octets have the same window and label count: the octets begin with them. */
  lemma {:induction false} SameOctetsSameFields(link: Link, a: Rrsig, b: Rrsig)
    requires FromWire(link) && a in link.signatures && b in link.signatures
    requires SignedData(link, a).Ok? && SignedData(link, a) == SignedData(link, b)
    ensures a.inception == b.inception && a.expiration == b.expiration && a.labels == b.labels
  {
    hide CanonicalRrset, ParseRrsig, FromBigEndian;
    var x :| ParseRrsig(x) == Ok(a);
    var y :| ParseRrsig(y) == Ok(b);
    FieldsOf(a, x);
    FieldsOf(b, y);
    var octets := SignedData(link, a).value;
    assert octets[3] == a.preamble[3] == b.preamble[3];
    assert octets[8..12] == a.preamble[8..12] == b.preamble[8..12];
    assert octets[12..16] == a.preamble[12..16] == b.preamble[12..16];
  }

  // ----- the rule for one key set -----

  lemma {:induction false} VerifiedKey(c: Crypto, rrsig: Rrsig, link: Link, key: Dnskey)
    requires Verify(c, rrsig, link, key).Ok?
    ensures rrsig.labels <= |link.owner| && key.IsZoneKey() && key.algorithm == rrsig.algorithm
  {
  }

  /** Where the keys are covered, whatever signature the walk uses verifies under a committed key. */
  lemma {:induction false} CoveredIsVouched(c: Crypto, zone: Name, keys: seq<Dnskey>, committed: Dnskey -> bool,
                                            timely: Rrsig -> bool, link: Link, rrsig: Rrsig)
    requires Covered(zone, keys, committed, timely, link)
    requires rrsig in link.signatures && timely(rrsig) && Usable(c, zone, keys, link, rrsig)
    ensures Vouched(c, zone, keys, committed, link, rrsig)
  {
    hide SignedData;
    var key :| key in keys && Verify(c, rrsig, link, key).Ok?;
    VerifiedKey(c, rrsig, link, key);
    assert MayVerify(zone, timely, link, rrsig, key);
    var k :| k in keys && committed(k) && SameKey(key, k);
    assert Verify(c, rrsig, link, k) == Verify(c, rrsig, link, key);
  }

  /** Accepts one signature's octets under one public key and nothing else. */
  function Only(algorithm: nat, publicKey: Bytes, message: Bytes, signature: Bytes): Check {
    (a: nat, k: Bytes, m: Bytes, g: Bytes) =>
      if a == algorithm && k == publicKey && m == message && g == signature then Ok(()) else Err(BadSignature)
  }

  ghost function Timely(w: Walk): Rrsig -> bool {
    (rrsig: Rrsig) => Intersect(w, rrsig).Ok?
  }

  /** The check that accepts only this signature under this key gets the set accepted. */
  lemma {:induction false} OneKeySigns(j: Judge, w: Walk, link: Link, rrsig: Rrsig, key: Dnskey) returns (v: Check)
    requires FromWire(link) && rrsig in link.signatures && key in w.keys
    requires MayVerify(w.zone, Timely(w), link, rrsig, key)
    ensures VerifySignedLink(With(j, v), w, link).Ok?
    ensures VerifySignedLink(With(j, v), w, link).value.1.labels == rrsig.labels
    ensures forall s, k | Verify(With(j, v).crypto, s, link, k).Ok? :: SameKey(key, k)
  {
    hide ParseRrsig, CanonicalRrset, FromWire, TrySignatures;
    var message := SignedData(link, rrsig).value;
    v := Only(key.algorithm, key.publicKey, message, rrsig.signature);
    var c := With(j, v).crypto;
    assert Verify(c, rrsig, link, key).Ok?;
    assert Usable(c, w.zone, w.keys, link, rrsig);
    FirstUsable(c, w.zone, w.keys, link, link.signatures, NoUsableSignature);
    var used := TrySignatures(c, w.zone, w.keys, link, link.signatures, NoUsableSignature).value;
    assert used in link.signatures && Usable(c, w.zone, w.keys, link, used);
    assert SignedData(link, used) == Ok(message);
    SameOctetsSameFields(link, rrsig, used);
  }

  /**
   The rule holds, whatever the cryptography says, exactly when the keys are covered: every key
   of the zone that a timely signature of the zone names by algorithm is a committed key.
   */
  lemma {:induction false} RuleExactly(j: Judge, w: Walk, committed: Dnskey -> bool, link: Link)
    requires FromWire(link)
    ensures (forall v: Check :: VerifySignedLink(With(j, v), w, link).Ok? ==>
               CommittedSigns(With(j, v).crypto, w.zone, w.keys, committed, link)) <==>
            Covered(w.zone, w.keys, committed, Timely(w), link)
  {
    hide FromWire, Verify, Intersect, TrySignatures, MayVerify, SameKey;
    if Covered(w.zone, w.keys, committed, Timely(w), link) {
      forall v: Check | VerifySignedLink(With(j, v), w, link).Ok?
        ensures CommittedSigns(With(j, v).crypto, w.zone, w.keys, committed, link)
      {
        var c := With(j, v).crypto;
        FirstUsable(c, w.zone, w.keys, link, link.signatures, NoUsableSignature);
        var used := VerifySignedLink(With(j, v), w, link).value.1;
        assert used in link.signatures && Usable(c, w.zone, w.keys, link, used);
        CoveredIsVouched(c, w.zone, w.keys, committed, Timely(w), link, used);
      }
    } else {
      var rrsig, key :| && rrsig in link.signatures && key in w.keys && MayVerify(w.zone, Timely(w), link, rrsig, key)
                        && !exists k | k in w.keys && committed(k) :: SameKey(key, k);
      var v := OneKeySigns(j, w, link, rrsig, key);
      assert !CommittedSigns(With(j, v).crypto, w.zone, w.keys, committed, link);
    }
  }

  // ----- entering, and crossing a cut -----

  /** The walk a chain is entered with, before any signature is seen. */
  ghost function Entry(link: Link): Walk {
    Walk(link.owner, KeysIn(link), link.owner, KeysIn(link), 0, FOREVER)
  }

  /** For the anchored set: the rule holds under every check exactly when a guard fails or the set is covered. */
  lemma {:induction false} EntryRuleExactly(j: Judge, link: Link)
    requires FromWire(link)
    ensures (forall v: Check :: EnterAnchored(With(j, v), link).Ok? ==>
               CommittedSigns(With(j, v).crypto, link.owner, KeysIn(link), ByAnchor(j, link.owner), link)) <==>
            (link.rtype == DNSKEY && ParseKeys(link).Ok? && Anchored(j, link.owner, KeysIn(link)) ==>
               Covered(link.owner, KeysIn(link), ByAnchor(j, link.owner), Timely(Entry(link)), link))
  {
    hide FromWire, VerifySignedLink, CommittedSigns, Covered, ParseKeys;
    RuleExactly(j, Entry(link), ByAnchor(j, link.owner), link);
    forall v: Check
      ensures EnterAnchored(With(j, v), link).Ok? <==>
              && link.rtype == DNSKEY && ParseKeys(link).Ok? && Anchored(j, link.owner, KeysIn(link))
              && VerifySignedLink(With(j, v), Entry(link), link).Ok?
    {
      SameAnchors(j, v, link.owner, KeysIn(link));
    }
  }

  lemma {:induction false} SameAnchors(j: Judge, v: Check, owner: Name, keys: seq<Dnskey>)
    ensures Anchored(With(j, v), owner, keys) == Anchored(j, owner, keys)
  {
    assert forall anchor, key ::
        AnchorMatches(With(j, v).crypto, anchor, owner, key) == AnchorMatches(j.crypto, anchor, owner, key);
  }

  lemma {:induction false} SameDsMatches(j: Judge, v: Check, child: Name, keys: seq<Dnskey>, dsSet: seq<Ds>)
    ensures DsMatched(With(j, v), child, keys, dsSet) == DsMatched(j, child, keys, dsSet)
  {
    assert forall key, ds :: DsMatches(With(j, v).crypto, child, key, ds) == DsMatches(j.crypto, child, key, ds);
  }

  /** The same at a cut, for the child's keys against the DS set above them. */
  lemma {:induction false} CutRuleExactly(j: Judge, w: Walk, link: Link, pending: Pending)
    requires FromWire(link)
    ensures var child := w.(zone := pending.child, keys := KeysIn(link));
            var committed := ByDs(j, pending.child, pending.dsSet);
            (forall v: Check :: CrossInto(With(j, v), w, link, pending).Ok? ==>
               CommittedSigns(With(j, v).crypto, pending.child, KeysIn(link), committed, link)) <==>
            (link.rtype == DNSKEY && link.owner == pending.child && ParseKeys(link).Ok?
             && DsMatched(j, pending.child, KeysIn(link), pending.dsSet) ==>
               Covered(pending.child, KeysIn(link), committed, Timely(child), link))
  {
    hide FromWire, VerifySignedLink, CommittedSigns, Covered, ParseKeys, DsMatched;
    var child := w.(zone := pending.child, keys := KeysIn(link));
    RuleExactly(j, child, ByDs(j, pending.child, pending.dsSet), link);
    forall v: Check
      ensures CrossInto(With(j, v), w, link, pending).Ok? <==>
              && link.rtype == DNSKEY && link.owner == pending.child && ParseKeys(link).Ok?
              && DsMatched(j, pending.child, KeysIn(link), pending.dsSet)
              && VerifySignedLink(With(j, v), child, link).Ok?
    {
      SameDsMatches(j, v, pending.child, KeysIn(link), pending.dsSet);
    }
  }

  // ----- whole chains -----

  /** Each key set that trust rests on was signed, with the signature used, by a committed key. */
  ghost predicate SignedAsCommitted(j: Judge, t: Trust) {
    match t
    case RootKeys(link, rrsig) => Vouched(j.crypto, link.owner, KeysIn(link), ByAnchor(j, link.owner), link, rrsig)
    case ZoneCut(parent, ds, _, child, childSig) =>
      && SignedAsCommitted(j, parent)
      && Vouched(j.crypto, child.owner, KeysIn(child), ByDs(j, child.owner, DsIn(ds)), child, childSig)
  }

  ghost function Ordered(): Rrsig -> bool {
    (rrsig: Rrsig) => rrsig.inception <= rrsig.expiration
  }

  ghost predicate RootCovered(j: Judge, link: Link) {
    Covered(link.owner, KeysIn(link), ByAnchor(j, link.owner), Ordered(), link)
  }

  ghost predicate CutCovered(j: Judge, ds: Link, child: Link) {
    Covered(child.owner, KeysIn(child), ByDs(j, child.owner, DsIn(ds)), Ordered(), child)
  }

  /** Every key set that follows its DS set is covered by it. */
  ghost predicate CutsCovered(j: Judge, links: seq<Link>) {
    forall i | 0 <= i < |links| - 1 && links[i].rtype == DS && links[i + 1].rtype == DNSKEY ::
      CutCovered(j, links[i], links[i + 1])
  }

  lemma {:induction false} CoveredCut(j: Judge, t: Trust)
    requires Trusted(j, t) && t.ZoneCut? && SignedAsCommitted(j, t.parent) && CutCovered(j, t.ds, t.child)
    ensures SignedAsCommitted(j, t)
  {
    hide Covered, Usable, DsMatched, Anchored, IsAncestorOrSelf;
    CoveredIsVouched(j.crypto, t.child.owner, KeysIn(t.child), ByDs(j, t.child.owner, DsIn(t.ds)), Ordered(), t.child,
                     t.childSig);
  }

  /** Committed keys sign every set on a descent whose links are covered. */
  lemma {:induction false} DescentSigned(j: Judge, from: Trust, t: Trust, before: seq<Link>, after: seq<Link>)
    requires Trusted(j, t) && Descends(from, t) && SignedAsCommitted(j, from)
    requires CutsCovered(j, before + LinksOf(CutSteps(from, t)) + after)
    ensures SignedAsCommitted(j, t)
    decreases t
  {
    hide Trusted, Descends, CutCovered, LinksOf, CutSteps, SignedAsCommitted;
    if t != from {
      var pair := LastCut(j, from, t);
      var upper := LinksOf(CutSteps(from, t.parent));
      var links := before + LinksOf(CutSteps(from, t)) + after;
      assert links == before + upper + (pair + after);
      DescentSigned(j, from, t.parent, before, pair + after);
      var i := |before + upper|;
      assert links[i] == t.ds && links[i + 1] == t.child;
      CoveredCut(j, t);
    }
  }

  lemma {:induction false} PathSigned(j: Judge, root: Trust, from: Trust, name: Name, hops: seq<Hop>, leaf: Hop,
                                      before: seq<Link>, after: seq<Link>)
    requires Leads(j, root, from, name, hops, leaf) && SignedAsCommitted(j, root) && SignedAsCommitted(j, from)
    requires CutsCovered(j, before + LinksOf(PathSteps(root, from, hops, leaf)) + after)
    ensures SignedAsCommitted(j, leaf.trust) && forall h | h in hops :: SignedAsCommitted(j, h.trust)
    decreases |hops|
  {
    hide Trusted, Descends, CutsCovered, LinksOf, CutSteps, SignedAsCommitted, SignedBy, TargetOf;
    var here := if hops == [] then leaf else hops[0];
    var later := if hops == [] then [] else PathSteps(root, ResumeAt(root, here), hops[1..], leaf);
    var upper := LinksOf(CutSteps(from, here.trust));
    PathLinks(root, from, hops, leaf);
    var links := before + LinksOf(PathSteps(root, from, hops, leaf)) + after;
    assert links == before + upper + ([here.link] + LinksOf(later) + after);
    DescentSigned(j, from, here.trust, before, [here.link] + LinksOf(later) + after);
    if hops != [] {
      assert links == before + upper + [here.link] + LinksOf(later) + after;
      PathSigned(j, root, ResumeAt(root, here), TargetOf(here.link).value, hops[1..], leaf,
                 before + upper + [here.link], after);
      assert forall h :: h in hops <==> h == here || h in hops[1..];
    }
  }

  /**
   In an accepted chain whose key sets are covered, every key set trusted is signed by a key that
   an anchor or the DS set above commits to.
   */
  lemma {:induction false} CommittedKeysSign(j: Judge, hostname: Bytes, frames: seq<Bytes>, ev: Evidence)
    requires Validate(j, hostname, frames).Ok? && OnomancyOwner(hostname).Some? && ParseLinks(frames).Ok?
    requires var owner, links := OnomancyOwner(hostname).value, ParseLinks(frames).value;
             && Justifies(j, owner, links, ev, Validate(j, hostname, frames).value)
             && links != [] && RootCovered(j, links[0]) && CutsCovered(j, Judged(links))
    ensures SignedAsCommitted(j, ev.root) && SignedAsCommitted(j, ev.leaf.trust)
    ensures forall h | h in ev.hops :: SignedAsCommitted(j, h.trust)
  {
    hide Validate, ParseLinks, OnomancyOwner, Leads, PathSteps, IsIntersection, InRange, Covered;
    hide LinksOf, Judged, CutsCovered, Usable, Anchored, DsMatched, ParseKeys;
    var links := ParseLinks(frames).value;
    AcceptedSteps(j, hostname, frames, ev);
    var path := LinksOf(PathSteps(ev.root, ev.root, ev.hops, ev.leaf));
    var rest: seq<Link> :| Judged(links) == [links[0]] + path + rest;
    var root := links[0];
    CoveredIsVouched(j.crypto, root.owner, KeysIn(root), ByAnchor(j, root.owner), Ordered(), root, ev.root.rrsig);
    PathSigned(j, ev.root, ev.root, OnomancyOwner(hostname).value, ev.hops, ev.leaf, [links[0]], rest);
  }
}
