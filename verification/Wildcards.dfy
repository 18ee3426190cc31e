/**
 Which links of an accepted chain were expanded from a wildcard. The validator means to refuse
 expanded answers, since the proof that no closer name exists is a negative proof; it looks at
 the leaf's label count only.
 */
module Wildcards {
  import opened Wrappers
  import opened Names
  import opened Records
  import opened Links
  import opened Dnssec
  import opened Validator
  import opened Soundness
  import opened Commitment

  /** The signature was made over another name than the link's own. */
  predicate Expanded(link: Link, rrsig: Rrsig) {
    SignedOwner(link.owner, rrsig.labels) != Ok(link.owner)
  }

  /** All labels are counted, or all but a literal wildcard's (section 3.1.3 of RFC 4034). */
  predicate CountsOwnLabels(owner: Name, labels: nat) {
    labels == |owner| || (labels + 1 == |owner| && owner[0] == WILDCARD)
  }

  /** A link used is free of expansion exactly when its signature counts the labels of its own owner. */
  lemma {:induction false} UnexpandedExactly(link: Link, rrsig: Rrsig)
    ensures !Expanded(link, rrsig) <==> CountsOwnLabels(link.owner, rrsig.labels)
  {
    var owner, labels := link.owner, rrsig.labels;
    if labels < |owner| {
      var wild := [WILDCARD] + owner[|owner| - labels..];
      if wild == owner {
        assert |wild| == labels + 1 && wild[0] == WILDCARD;
      }
      if CountsOwnLabels(owner, labels) {
        assert owner == [owner[0]] + owner[1..];
      }
    }
  }

  lemma {:induction false} LeafCounts(j: Judge, root: Trust, from: Trust, name: Name, hops: seq<Hop>, leaf: Hop)
    requires Leads(j, root, from, name, hops, leaf)
    ensures CountsOwnLabels(leaf.link.owner, leaf.rrsig.labels)
    decreases |hops|
  {
    hide Trusted, Descends, SignedBy, TargetOf, ResumeAt;
    if hops != [] {
      LeafCounts(j, root, ResumeAt(root, hops[0]), TargetOf(hops[0].link).value, hops[1..], leaf);
    }
  }

  /**
   The leaf of an accepted chain is never expanded; the chain as a whole is free of expansion
   exactly when each signature used before the leaf counts its own owner's labels.
   */
  lemma {:induction false} UnexpandedChains(j: Judge, owner: Name, links: seq<Link>, ev: Evidence, proof: ChainProof)
    requires Justifies(j, owner, links, ev, proof)
    ensures !Expanded(ev.leaf.link, ev.leaf.rrsig)
    ensures (forall s | s in Steps(ev) :: !Expanded(s.link, s.rrsig)) <==>
            forall s | s in Steps(ev) && s != Step(ev.leaf.link, ev.leaf.rrsig) ::
              CountsOwnLabels(s.link.owner, s.rrsig.labels)
  {
    hide Expanded, CountsOwnLabels, IsIntersection, InRange, Judged, Steps, Trusted, Attested;
    LeafCounts(j, ev.root, ev.root, owner, ev.hops, ev.leaf);
    UnexpandedExactly(ev.leaf.link, ev.leaf.rrsig);
    forall s | s in Steps(ev) ensures !Expanded(s.link, s.rrsig) <==> CountsOwnLabels(s.link.owner, s.rrsig.labels) {
      UnexpandedExactly(s.link, s.rrsig);
    }
  }

  /**
   A link is taken unexpanded whatever the cryptography says exactly when each signature that could
   be accepted for it counts its own owner's labels.
   */
  lemma {:induction false} LinkUnexpandedExactly(j: Judge, w: Walk, link: Link)
    requires FromWire(link)
    ensures (forall v: Check :: VerifySignedLink(With(j, v), w, link).Ok? ==>
               !Expanded(link, VerifySignedLink(With(j, v), w, link).value.1)) <==>
            forall rrsig, key | rrsig in link.signatures && key in w.keys
                                && MayVerify(w.zone, Timely(w), link, rrsig, key) ::
              CountsOwnLabels(link.owner, rrsig.labels)
  {
    hide FromWire, Intersect, TrySignatures, Expanded, CountsOwnLabels, Verify;
    if rrsig, key :| rrsig in link.signatures && key in w.keys && MayVerify(w.zone, Timely(w), link, rrsig, key)
                     && !CountsOwnLabels(link.owner, rrsig.labels) {
      var v := OneKeySigns(j, w, link, rrsig, key);
      UnexpandedExactly(link, VerifySignedLink(With(j, v), w, link).value.1);
    } else {
      forall v: Check | VerifySignedLink(With(j, v), w, link).Ok?
        ensures !Expanded(link, VerifySignedLink(With(j, v), w, link).value.1)
      {
        var c := With(j, v).crypto;
        FirstUsable(c, w.zone, w.keys, link, link.signatures, NoUsableSignature);
        var used := VerifySignedLink(With(j, v), w, link).value.1;
        assert used in link.signatures && Usable(c, w.zone, w.keys, link, used);
        var key :| key in w.keys && Verify(c, used, link, key).Ok?;
        VerifiedKey(c, used, link, key);
        assert MayVerify(w.zone, Timely(w), link, used, key);
        UnexpandedExactly(link, used);
      }
    }
  }
}
