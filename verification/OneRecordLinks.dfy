/**
 One-record links under the judge of `Worlds`, for which every signature verifies: as records, as
 framed octets, and as steps of the walk.
 */
module OneRecordLinks {
  import opened Wrappers
  import opened Wire
  import opened Names
  import opened Records
  import opened Links
  import opened Dnssec
  import opened Freshness
  import opened Text
  import opened TxtRecords
  import opened Validator
  import opened Worlds
  import S = Soundness

  // ----- one-record links -----

  function Reading(rtype: nat, labels: nat, signer: Name): Rrsig {
    Rrsig(rtype, 8, labels, 0, 0, 0, 0, signer, SigRdata(rtype, labels, signer), [])
  }

  function Data(owner: Name, rtype: nat, rdata: Bytes): Record {
    Record(owner, rtype, CLASS_IN, 0, rdata)
  }

  function SigRecord(owner: Name, rtype: nat, labels: nat, signer: Name): Record {
    Record(owner, RRSIG, CLASS_IN, 0, SigRdata(rtype, labels, signer))
  }

  /** Some data records of one owner and type, and one signature over them. */
  function SignedFrame(data: seq<Record>, owner: Name, rtype: nat, labels: nat, signer: Name): Bytes {
    WriteRecords(data + [SigRecord(owner, rtype, labels, signer)])
  }

  function SignedLink(data: seq<Record>, owner: Name, rtype: nat, labels: nat, signer: Name): Link {
    Link(owner, data, rtype, [Reading(rtype, labels, signer)])
  }

  /** Names and records small enough to write. */
  ghost predicate Writable(data: seq<Record>, owner: Name, rtype: nat, labels: nat, signer: Name) {
    && ValidName(owner) && ValidName(signer) && rtype < 0x1_0000 && rtype != RRSIG && labels <= |owner|
    && 1 <= |data| <= 2
    && forall r | r in data :: r == Data(owner, rtype, r.rdata) && |r.rdata| <= 255
  }

  lemma {:induction false} RecordLength(r: Record)
    requires ValidName(r.owner) && |r.rdata| <= 1000
    ensures |WriteRecord(r)| <= 1300
  {
    hide WriteName, ValidName, BigEndian;
    WireLenBounded(r.owner);
  }

  lemma {:induction false} FrameReads(data: seq<Record>, owner: Name, rtype: nat, labels: nat, signer: Name)
    requires Writable(data, owner, rtype, labels, signer)
    ensures |SignedFrame(data, owner, rtype, labels, signer)| <= 3900
    ensures ParseLink(SignedFrame(data, owner, rtype, labels, signer))
            == Ok(SignedLink(data, owner, rtype, labels, signer))
  {
    hide ParseLink, ParseRrsig, SigRdata, ValidName, WriteRecord;
    var sig := SigRecord(owner, rtype, labels, signer);
    WireLenBounded(owner);
    SigParses(rtype, labels, signer);
    CoveredTypeAgrees(sig);
    assert Frames(data, [sig], owner, rtype);
    SigLength(rtype, labels, signer);
    FrameLength(data, sig);
    FrameParses(data, [sig], owner, rtype);
    var link := ParseLink(SignedFrame(data, owner, rtype, labels, signer)).value;
    assert [sig][0] == sig && link.signatures == [Reading(rtype, labels, signer)];
  }

  lemma {:induction false} FrameLength(data: seq<Record>, sig: Record)
    requires 1 <= |data| <= 2 && ValidName(sig.owner) && |sig.rdata| <= 1000
    requires forall r | r in data :: ValidName(r.owner) && |r.rdata| <= 255
    ensures |WriteRecords(data + [sig])| <= 3900
  {
    hide ValidName, WriteRecord;
    forall r | r in data + [sig] ensures |WriteRecord(r)| <= 1300 { RecordLength(r); }
    var all := data + [sig];
    assert all[0] in all && all[1] in all && all[|all| - 1] in all;
    assert WriteRecords(all[2..]) == if |all| == 2 then [] else WriteRecord(all[2]) + WriteRecords(all[3..]);
    assert WriteRecords(all) == WriteRecord(all[0]) + WriteRecords(all[1..]);
    assert all[1..][1..] == all[2..] && all[2..][0..] == all[2..];
  }

  lemma SigLength(rtype: nat, labels: nat, signer: Name)
    requires ValidName(signer)
    ensures |SigRdata(rtype, labels, signer)| <= 300
  {
    hide WriteName, ValidName;
    WireLenBounded(signer);
  }

  /** The walk at a zone after any such signature: its window is the instant zero. */
  function At(zone: Name): Walk {
    Walk(zone, [KEY], ROOT, [KEY], 0, 0)
  }

  lemma {:induction false} AllVerify(w: Walk, data: seq<Record>, owner: Name, rtype: nat, labels: nat)
    requires labels <= |owner| && w.keys == [KEY] && w.lo == 0
    ensures VerifySignedLink(Credulous(), w, SignedLink(data, owner, rtype, labels, w.zone))
            == Ok((w.(hi := 0), Reading(rtype, labels, w.zone)))
  {
    hide CanonicalRrset, TrySignatures;
    var link := SignedLink(data, owner, rtype, labels, w.zone);
    var rrsig := Reading(rtype, labels, w.zone);
    assert KEY in w.keys && Verify(Credulous().crypto, rrsig, link, KEY).Ok?;
    assert Usable(Credulous().crypto, w.zone, w.keys, link, rrsig) && rrsig in link.signatures;
    S.FirstUsable(Credulous().crypto, w.zone, w.keys, link, link.signatures, NoUsableSignature);
  }

  function KeyLink(zone: Name): Link {
    SignedLink([Data(zone, DNSKEY, KEY_RDATA)], zone, DNSKEY, |zone|, zone)
  }

  function DsLink(zone: Name, child: Name): Link {
    SignedLink([Data(child, DS, DS_RDATA)], child, DS, |child|, zone)
  }

  function CnameLink(zone: Name, owner: Name, target: Name, labels: nat): Link {
    SignedLink([Data(owner, CNAME, WriteName(target))], owner, CNAME, labels, zone)
  }

  function TxtLink(zone: Name, owner: Name): Link {
    SignedLink([Data(owner, TXT, [0])], owner, TXT, |owner|, zone)
  }

  lemma {:induction false} OneParses<T>(parse: Bytes -> Option<T>, r: Record)
    requires parse(r.rdata).Some?
    ensures ParseAll(parse, [r]) == Some([parse(r.rdata).value])
  {
    assert [r][1..] == [];
    assert [parse(r.rdata).value] + [] == [parse(r.rdata).value];
  }

  lemma OneBinding(canonical: KeyTest, r: Record)
    requires BindingOf(canonical, r.rdata) == None
    ensures ParseBindings(canonical, [r]) == []
  {
    hide BindingOf;
    assert [r][1..] == [];
  }

  lemma KeysOf(zone: Name)
    ensures ParseKeys(KeyLink(zone)) == Ok([KEY])
  {
    KeyParses();
    OneParses(ParseDnskey, Data(zone, DNSKEY, KEY_RDATA));
  }

  lemma RootEntered()
    ensures EnterAnchored(Credulous(), KeyLink(ROOT)) == Ok(At(ROOT))
  {
    hide VerifySignedLink, ParseKeys;
    KeysOf(ROOT);
    var anchor := TrustAnchor(8, [0], 0, ROOT);
    assert anchor in Credulous().anchors && KEY in [KEY] && AnchorMatches(Credulous().crypto, anchor, ROOT, KEY);
    AllVerify(Walk(ROOT, [KEY], ROOT, [KEY], 0, FOREVER), [Data(ROOT, DNSKEY, KEY_RDATA)], ROOT, DNSKEY, 0);
  }

  const THE_DS: Ds := Ds(0, 8, 2, [0])

  /** A delegation to any name below the zone, wherever the target is. */
  lemma {:induction false} Delegated(zone: Name, child: Name, target: Name, hops: nat)
    requires IsAncestorOrSelf(zone, child) && zone != child
    ensures TakeLink(Credulous(), Progress(At(zone), target, None, hops), DsLink(zone, child))
            == Ok(Going(Progress(At(zone), target, Some(Pending(child, [THE_DS])), hops)))
  {
    hide VerifySignedLink, IsAncestorOrSelf;
    KeyParses();
    AllVerify(At(zone), [Data(child, DS, DS_RDATA)], child, DS, |child|);
    OneParses(ParseDs, Data(child, DS, DS_RDATA));
  }

  lemma {:induction false} Crossed(zone: Name, child: Name, target: Name, hops: nat)
    ensures TakeLink(Credulous(), Progress(At(zone), target, Some(Pending(child, [THE_DS])), hops), KeyLink(child))
            == Ok(Going(Progress(At(child), target, None, hops)))
  {
    hide VerifySignedLink, ParseKeys;
    KeysOf(child);
    assert KEY in [KEY] && THE_DS in [THE_DS] && DsMatches(Credulous().crypto, child, KEY, THE_DS);
    AllVerify(At(zone).(zone := child), [Data(child, DNSKEY, KEY_RDATA)], child, DNSKEY, |child|);
  }

  lemma {:induction false} Aliased(zone: Name, owner: Name, target: Name, labels: nat, hops: nat)
    requires ValidName(target) && labels <= |owner| && hops < MAX_CNAME_HOPS
    ensures TakeLink(Credulous(), Progress(At(zone), owner, None, hops), CnameLink(zone, owner, target, labels))
            == Ok(Going(Progress(Reroot(At(zone), target), target, None, hops + 1)))
  {
    hide VerifySignedLink, IsAncestorOrSelf, ReadName, WriteName, ValidName;
    AllVerify(At(zone), [Data(owner, CNAME, WriteName(target))], owner, CNAME, labels);
    WireLenBounded(target);
    NamePrefix(target, []);
    assert WriteName(target) + [] == WriteName(target);
    assert ParseCname(WriteName(target)) == Some(target);
  }

  lemma {:induction false} Proven(zone: Name, owner: Name, hops: nat)
    ensures TakeLink(Credulous(), Progress(At(zone), owner, None, hops), TxtLink(zone, owner))
            == Ok(Finished(ChainProof([], Window(0, 0))))
  {
    hide VerifySignedLink;
    AllVerify(At(zone), [Data(owner, TXT, [0])], owner, TXT, |owner|);
    NoBinding();
    OneBinding(Credulous().canonical, Data(owner, TXT, [0]));
  }

  lemma NoBinding()
    ensures BindingOf(Credulous().canonical, [0]) == None
  {
  }

  // ----- the links as frames -----

  function KeyFrame(zone: Name): Bytes {
    SignedFrame([Data(zone, DNSKEY, KEY_RDATA)], zone, DNSKEY, |zone|, zone)
  }

  function DsFrame(zone: Name, child: Name): Bytes {
    SignedFrame([Data(child, DS, DS_RDATA)], child, DS, |child|, zone)
  }

  function CnameFrame(zone: Name, owner: Name, target: Name, labels: nat): Bytes {
    SignedFrame([Data(owner, CNAME, WriteName(target))], owner, CNAME, labels, zone)
  }

  function TxtFrame(zone: Name, owner: Name): Bytes {
    SignedFrame([Data(owner, TXT, [0])], owner, TXT, |owner|, zone)
  }

  lemma {:induction false} FramesRead(zone: Name, owner: Name, target: Name, labels: nat)
    requires ValidName(zone) && ValidName(owner) && ValidName(target) && labels <= |owner|
    ensures ParseLink(KeyFrame(zone)) == Ok(KeyLink(zone))
    ensures ParseLink(DsFrame(zone, owner)) == Ok(DsLink(zone, owner))
    ensures ParseLink(CnameFrame(zone, owner, target, labels)) == Ok(CnameLink(zone, owner, target, labels))
    ensures ParseLink(TxtFrame(zone, owner)) == Ok(TxtLink(zone, owner))
  {
    hide ParseLink, SignedFrame, SignedLink, ValidName, WriteName;
    WireLenBounded(target);
    FrameReads([Data(zone, DNSKEY, KEY_RDATA)], zone, DNSKEY, |zone|, zone);
    FrameReads([Data(owner, DS, DS_RDATA)], owner, DS, |owner|, zone);
    FrameReads([Data(owner, CNAME, WriteName(target))], owner, CNAME, labels, zone);
    FrameReads([Data(owner, TXT, [0])], owner, TXT, |owner|, zone);
  }

  lemma {:induction false} ParsesTo(frames: seq<Bytes>, links: seq<Link>)
    requires |frames| == |links| && forall i | 0 <= i < |frames| :: ParseLink(frames[i]) == Ok(links[i])
    ensures ParseLinks(frames) == Ok(links)
  {
    hide ParseLink, ParseLinks;
    ParsedFrames(frames);
    assert ParseLinks(frames).value == links;
  }

  lemma RootIsAbove(name: Name)
    ensures IsAncestorOrSelf(ROOT, name)
    ensures ValidName(ROOT)
  {
  }

  /** The walk takes its first link and goes on with the others. */
  lemma {:induction false} WalkStep(j: Judge, p: Progress, links: seq<Link>)
    requires links != [] && TakeLink(j, p, links[0]).Ok?
    ensures WalkLinks(j, p, links) == match TakeLink(j, p, links[0]).value
                                      case Finished(proof) => Ok(proof)
                                      case Going(next) => WalkLinks(j, next, links[1..])
  {
    hide TakeLink;
  }

  // ----- concrete names -----

  /** The octets of `v.w` and `com`, and the label `e`. */
  const V_W: Bytes := [118, 46, 119]
  const COM: Bytes := [99, 111, 109]
  const E: Label := [101]

  /** A name ending in a valid name, with one more valid label. */
  lemma LongerName(first: Label, rest: Name)
    requires ValidLabel(first) && ValidLabels(rest)
    ensures WireLen([first] + rest) == 1 + |first| + WireLen(rest) && ValidLabels([first] + rest)
  {
    assert ([first] + rest)[1..] == rest;
  }

  lemma ShortNames()
    ensures ValidName([COM]) && ValidName([E]) && WireLen([COM]) == 5
    ensures ValidName([[118], [119]]) && WireLen([[118], [119]]) == 5
  {
    LongerName(COM, []);
    LongerName(E, []);
    LongerName([119], []);
    LongerName([118], [[119]]);
    assert [COM] + [] == [COM] && [E] + [] == [E] && [[119 as byte]] + [] == [[119]];
    assert [[118 as byte]] + [[119]] == [[118], [119]];
  }

  lemma OwnersOf()
    ensures OnomancyOwner(V_W) == Some([SERVICE_LABEL, [118], [119]]) && ValidName([SERVICE_LABEL, [118], [119]])
    ensures OnomancyOwner(COM) == Some([SERVICE_LABEL, COM]) && ValidName([SERVICE_LABEL, COM])
    ensures ValidName([COM]) && ValidName([E])
  {
    hide WireLen, ValidLabels;
    ShortNames();
    SplitNames();
    LongerName(SERVICE_LABEL, [[118], [119]]);
    LongerName(SERVICE_LABEL, [COM]);
    assert [SERVICE_LABEL] + [[118], [119]] == [SERVICE_LABEL, [118], [119]];
    assert [SERVICE_LABEL] + [COM] == [SERVICE_LABEL, COM];
  }

  lemma SplitNames()
    ensures Split(V_W, '.' as byte) == [[118], [119]] && Split(COM, '.' as byte) == [COM]
  {
    var dot := '.' as byte;
    SplitAt([118], [119], dot);
    SplitAt([119], [], dot);
    SplitAt(COM, [], dot);
    assert [118] + [dot] + [119] == V_W;
  }
}
