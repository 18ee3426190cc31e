/**
 Accepted chains that break the rules of DNSSEC the validator does not check.
 */
module Counterexamples {
  import opened Wrappers
  import opened Wire
  import opened Names
  import opened Records
  import opened Links
  import opened Dnssec
  import opened Freshness
  import opened Validator
  import opened Worlds
  import opened OneRecordLinks
  import Commitment
  import Containment
  import S = Soundness
  import Wildcards

  // ----- a zone that does not contain the name it speaks for -----

  /** The root's keys, a delegation to `zone`, its keys, and a TXT RRset at `owner` that it signs. */
  function SpeakingLinks(zone: Name, owner: Name): seq<Link> {
    [KeyLink(ROOT), DsLink(ROOT, zone), KeyLink(zone), TxtLink(zone, owner)]
  }

  function SpeakingFrames(zone: Name, owner: Name): seq<Bytes> {
    [KeyFrame(ROOT), DsFrame(ROOT, zone), KeyFrame(zone), TxtFrame(zone, owner)]
  }

  /** Any signed zone is heard about any hostname; it contains the owner name only if it lies above it. */
  lemma {:induction false} AnySignedZoneSpeaks(zone: Name, hostname: Bytes)
    requires ValidName(zone) && zone != ROOT
    requires OnomancyOwner(hostname).Some? && ValidName(OnomancyOwner(hostname).value)
    ensures var owner := OnomancyOwner(hostname).value;
            && ParseLinks(SpeakingFrames(zone, owner)) == Ok(SpeakingLinks(zone, owner))
            && Validate(Credulous(), hostname, SpeakingFrames(zone, owner)) == Ok(ChainProof([], Window(0, 0)))
            && (Containment.OnBranch(ROOT, owner, SpeakingLinks(zone, owner)[1..]) <==> IsAncestorOrSelf(zone, owner))
  {
    hide ParseLink, ParseLinks, OnomancyOwner, ValidName, EnterAnchored, TakeLink, IsAncestorOrSelf, SignedFrame;
    var owner := OnomancyOwner(hostname).value;
    RootIsAbove(zone);
    RootIsAbove(owner);
    FramesRead(ROOT, zone, zone, |zone|);
    FramesRead(zone, owner, owner, |owner|);
    var links := SpeakingLinks(zone, owner);
    ParsesTo(SpeakingFrames(zone, owner), links);
    RootEntered();
    Delegated(ROOT, zone, owner, 0);
    Crossed(ROOT, zone, owner, 0);
    Proven(zone, owner, 0);
    var start := Progress(At(ROOT), owner, None, 0);
    hide WalkLinks;
    assert links[1..] == [links[1], links[2], links[3]];
    WalkStep(Credulous(), start, links[1..]);
    assert links[1..][1..] == [links[2], links[3]] && [links[2], links[3]][1..] == [links[3]];
    WalkStep(Credulous(), start.(pending := Some(Pending(zone, [THE_DS]))), [links[2], links[3]]);
    WalkStep(Credulous(), start.(walk := At(zone)), [links[3]]);
    assert Containment.OnBranch(ROOT, owner, [links[2], links[3]]);
  }

  /**
   The keys of `e` are believed about `_onomancy.v.w`: the chain is accepted, and no evidence for
   it is contained.
   */
  lemma {:induction false} UncontainedChain()
    ensures var owner: Name := [SERVICE_LABEL, [118], [119]];
            var frames, links := SpeakingFrames([E], owner), SpeakingLinks([E], owner);
            && OnomancyOwner(V_W) == Some(owner) && ParseLinks(frames) == Ok(links)
            && Validate(Credulous(), V_W, frames) == Ok(ChainProof([], Window(0, 0)))
            && !IsAncestorOrSelf([E], owner)
            && forall ev | S.Justifies(Credulous(), owner, links, ev, ChainProof([], Window(0, 0))) ::
                 !Containment.Contained(ev)
  {
    hide Validate, ParseLinks, OnomancyOwner, ValidName, S.Justifies, Containment.Contained, Containment.OnBranch;
    hide SpeakingFrames, SpeakingLinks, Credulous;
    OwnersOf();
    var owner: Name := [SERVICE_LABEL, [118], [119]];
    AnySignedZoneSpeaks([E], V_W);
    var e: Name := [E];
    assert !IsAncestorOrSelf(e, owner) by {
      assert e[0] == E && owner[2] == [119] && E[0] != owner[2][0];
    }
    forall ev | S.Justifies(Credulous(), owner, SpeakingLinks([E], owner), ev, ChainProof([], Window(0, 0)))
      ensures !Containment.Contained(ev)
    {
      Containment.ContainedExactly(Credulous(), V_W, SpeakingFrames([E], owner), ev);
      RootFirst([E], owner);
    }
  }

  lemma RootFirst(zone: Name, owner: Name)
    ensures SpeakingLinks(zone, owner) != [] && SpeakingLinks(zone, owner)[0].owner == ROOT
  {
  }

  // ----- a hop expanded from a wildcard -----

  /**
   A CNAME whose one signature was made over `*` is followed like any other: only the leaf's
   label count is looked at.
   */
  lemma {:induction false} ExpandedHopIsFollowed(hostname: Bytes, target: Name)
    requires OnomancyOwner(hostname).Some? && ValidName(OnomancyOwner(hostname).value) && ValidName(target)
    ensures var owner := OnomancyOwner(hostname).value;
            var frames := [KeyFrame(ROOT), CnameFrame(ROOT, owner, target, 0), TxtFrame(ROOT, target)];
            && Validate(Credulous(), hostname, frames) == Ok(ChainProof([], Window(0, 0)))
            && ParseLink(frames[1]) == Ok(CnameLink(ROOT, owner, target, 0))
            && CnameLink(ROOT, owner, target, 0).signatures == [Reading(CNAME, 0, ROOT)]
            && Wildcards.Expanded(CnameLink(ROOT, owner, target, 0), Reading(CNAME, 0, ROOT))
  {
    hide ParseLink, ParseLinks, ValidName, EnterAnchored, TakeLink, WalkLinks, IsAncestorOrSelf, SignedFrame, SigRdata;
    var owner := OnomancyOwner(hostname).value;
    RootIsAbove(target);
    FramesRead(ROOT, owner, target, 0);
    FramesRead(ROOT, target, target, 0);
    var frames := [KeyFrame(ROOT), CnameFrame(ROOT, owner, target, 0), TxtFrame(ROOT, target)];
    var links := [KeyLink(ROOT), CnameLink(ROOT, owner, target, 0), TxtLink(ROOT, target)];
    ParsesTo(frames, links);
    RootEntered();
    Aliased(ROOT, owner, target, 0, 0);
    Proven(ROOT, target, 1);
    assert links[1..] == [links[1], links[2]] && [links[1], links[2]][1..] == [links[2]];
    WalkStep(Credulous(), Progress(At(ROOT), owner, None, 0), [links[1], links[2]]);
    WalkStep(Credulous(), Progress(At(ROOT), target, None, 1), [links[2]]);
    Wildcards.UnexpandedExactly(CnameLink(ROOT, owner, target, 0), Reading(CNAME, 0, ROOT));
  }

  // ----- a key set signed by a key nothing commits to -----

  const OWN_RDATA: Bytes := [1, 0, 3, 8, 1]
  const FOREIGN_RDATA: Bytes := [1, 0, 3, 8, 2]
  const OWN: Dnskey := Dnskey(256, 8, [1], OWN_RDATA)
  const FOREIGN: Dnskey := Dnskey(256, 8, [2], FOREIGN_RDATA)

  /** Only the foreign key's signatures verify; the anchor commits to the other key, whose digest is its last octet. */
  function Partial(): Judge {
    Judge(Crypto((a: nat, k: Bytes, m: Bytes, s: Bytes) => if k == [2] then Ok(()) else Err(BadSignature),
                 (b: Bytes) => if b == [] then [] else [b[|b| - 1]]),
          (k: Bytes) => true, [TrustAnchor(8, [1], 0, ROOT)])
  }

  function BothKeys(zone: Name): seq<Record> {
    [Data(zone, DNSKEY, OWN_RDATA), Data(zone, DNSKEY, FOREIGN_RDATA)]
  }

  function BothLink(zone: Name): Link {
    SignedLink(BothKeys(zone), zone, DNSKEY, |zone|, zone)
  }

  lemma BothParse(zone: Name)
    requires ValidName(zone)
    ensures ParseLink(SignedFrame(BothKeys(zone), zone, DNSKEY, |zone|, zone)) == Ok(BothLink(zone))
    ensures ParseKeys(BothLink(zone)) == Ok([OWN, FOREIGN])
  {
    hide ParseLink, SignedFrame, ValidName, SigRdata;
    FrameReads(BothKeys(zone), zone, DNSKEY, |zone|, zone);
    KeyParses();
    assert OWN_RDATA[..2] == KEY_RDATA[..2] == FOREIGN_RDATA[..2];
    assert OWN_RDATA[4..] == [1] && FOREIGN_RDATA[4..] == [2];
    var rrset := BothKeys(zone);
    OneParses(ParseDnskey, rrset[1]);
    assert rrset[1..] == [rrset[1]] && [OWN] + [FOREIGN] == [OWN, FOREIGN];
  }

  /** What each key's digest and signatures are worth to this judge. */
  lemma {:induction false} OnlyForeignSigns(zone: Name, link: Link, rrsig: Rrsig)
    ensures DsDigest(Partial().crypto, zone, OWN) == [1] && DsDigest(Partial().crypto, zone, FOREIGN) == [2]
    ensures Verify(Partial().crypto, rrsig, link, OWN).Err?
    ensures rrsig.algorithm == 8 && rrsig.labels <= |link.owner| ==> Verify(Partial().crypto, rrsig, link, FOREIGN).Ok?
  {
    hide CanonicalRrset, WriteName;
    var own, foreign := WriteName(zone) + OWN_RDATA, WriteName(zone) + FOREIGN_RDATA;
    assert own[|own| - 1] == 1 && foreign[|foreign| - 1] == 2;
  }

  lemma {:induction false} BothVerify(w: Walk)
    requires w.keys == [OWN, FOREIGN] && w.lo == 0
    ensures VerifySignedLink(Partial(), w, BothLink(w.zone)).Ok?
  {
    hide TrySignatures, Verify;
    var link := BothLink(w.zone);
    var rrsig := link.signatures[0];
    OnlyForeignSigns(w.zone, link, rrsig);
    assert FOREIGN in w.keys && Usable(Partial().crypto, w.zone, w.keys, link, rrsig) && rrsig in link.signatures;
    S.FirstUsable(Partial().crypto, w.zone, w.keys, link, link.signatures, NoUsableSignature);
  }

  lemma {:induction false} NoCommittedKeySigns(zone: Name, committed: Dnskey -> bool)
    requires !committed(FOREIGN)
    ensures !Commitment.CommittedSigns(Partial().crypto, zone, [OWN, FOREIGN], committed, BothLink(zone))
  {
    hide Verify, SigRdata;
    var link := BothLink(zone);
    OnlyForeignSigns(zone, link, link.signatures[0]);
    assert forall s | s in link.signatures :: s == link.signatures[0];
  }

  /** A set with a foreign key added, and signed by that key alone, is entered as the root's. */
  lemma ForeignKeyEnters()
    ensures var link := BothLink(ROOT);
            && ParseLink(SignedFrame(BothKeys(ROOT), ROOT, DNSKEY, 0, ROOT)) == Ok(link)
            && EnterAnchored(Partial(), link).Ok? && S.KeysIn(link) == [OWN, FOREIGN]
            && !Commitment.CommittedSigns(Partial().crypto, ROOT, S.KeysIn(link),
                                          Commitment.ByAnchor(Partial(), ROOT), link)
  {
    hide ParseLink, SignedFrame, ParseKeys, VerifySignedLink, Verify, SigRdata;
    RootIsAbove(ROOT);
    BothParse(ROOT);
    OnlyForeignSigns(ROOT, BothLink(ROOT), BothLink(ROOT).signatures[0]);
    var anchor := TrustAnchor(8, [1], 0, ROOT);
    assert anchor in Partial().anchors && OWN in [OWN, FOREIGN] && AnchorMatches(Partial().crypto, anchor, ROOT, OWN);
    BothVerify(Walk(ROOT, [OWN, FOREIGN], ROOT, [OWN, FOREIGN], 0, FOREVER));
    assert !Commitment.AnchorCommits(Partial(), ROOT, FOREIGN);
    NoCommittedKeySigns(ROOT, Commitment.ByAnchor(Partial(), ROOT));
  }

  /** The same at any cut, below a DS that commits to the other key. */
  lemma {:induction false} ForeignKeyCrosses(w: Walk, child: Name)
    requires ValidName(child) && w.lo == 0
    ensures var link, pending := BothLink(child), Pending(child, [Ds(0, 8, 2, [1])]);
            && ParseLink(SignedFrame(BothKeys(child), child, DNSKEY, |child|, child)) == Ok(link)
            && CrossInto(Partial(), w, link, pending).Ok? && S.KeysIn(link) == [OWN, FOREIGN]
            && !Commitment.CommittedSigns(Partial().crypto, child, S.KeysIn(link),
                                          Commitment.ByDs(Partial(), child, pending.dsSet), link)
  {
    hide ParseLink, SignedFrame, ParseKeys, VerifySignedLink, Verify, SigRdata, ValidName;
    BothParse(child);
    OnlyForeignSigns(child, BothLink(child), BothLink(child).signatures[0]);
    var ds := Ds(0, 8, 2, [1]);
    assert OWN in [OWN, FOREIGN] && ds in [ds] && DsMatches(Partial().crypto, child, OWN, ds);
    BothVerify(w.(zone := child, keys := [OWN, FOREIGN]));
    assert !Commitment.DsCommits(Partial(), child, [ds], FOREIGN);
    NoCommittedKeySigns(child, Commitment.ByDs(Partial(), child, [ds]));
  }
}
