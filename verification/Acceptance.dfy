/**
 What an accepted chain proves, in full: the evidence of `Soundness`, and exactly when it also
 meets the three rules that DNSSEC has and the validator does not check.
 */
module Acceptance {
  import opened Wire
  import opened Validator
  import opened Soundness
  import opened Containment
  import opened Commitment
  import opened Wildcards

  /** Committed keys sign every key set the evidence rests on. */
  ghost predicate CommittedThroughout(j: Judge, ev: Evidence) {
    && SignedAsCommitted(j, ev.root) && SignedAsCommitted(j, ev.leaf.trust)
    && forall h | h in ev.hops :: SignedAsCommitted(j, h.trust)
  }

  ghost predicate Unexpanded(ev: Evidence)
    requires ev.root.RootKeys?
  {
    forall s | s in Steps(ev) :: !Expanded(s.link, s.rrsig)
  }

  /**
   Every accepted chain has evidence. It is contained exactly when the links stay on the branch of
   the name being resolved; committed keys sign throughout if the key sets are covered; and it is
   free of wildcard expansion exactly when each signature used counts its own owner's labels, which
   the leaf's always does.
   */
  lemma {:induction false} AcceptedMeans(j: Judge, hostname: Bytes, frames: seq<Bytes>) returns (ev: Evidence)
    requires Validate(j, hostname, frames).Ok?
    ensures OnomancyOwner(hostname).Some? && ParseLinks(frames).Ok? && ParseLinks(frames).value != []
    ensures var owner, links := OnomancyOwner(hostname).value, ParseLinks(frames).value;
            && Justifies(j, owner, links, ev, Validate(j, hostname, frames).value)
            && (Contained(ev) <==> OnBranch(links[0].owner, owner, links[1..]))
            && (RootCovered(j, links[0]) && CutsCovered(j, Judged(links)) ==> CommittedThroughout(j, ev))
            && !Expanded(ev.leaf.link, ev.leaf.rrsig)
            && (Unexpanded(ev) <==> forall s | s in Steps(ev) :: CountsOwnLabels(s.link.owner, s.rrsig.labels))
  {
    hide Validate, ParseLinks, OnomancyOwner, Trusted, Leads, IsIntersection, InRange, Contained, OnBranch;
    hide RootCovered, CutsCovered, Judged, Expanded, CountsOwnLabels, Steps, SignedAsCommitted, LinksOf;
    Soundness.Soundness(j, hostname, frames);
    var owner, links := OnomancyOwner(hostname).value, ParseLinks(frames).value;
    ev :| Justifies(j, owner, links, ev, Validate(j, hostname, frames).value);
    ContainedExactly(j, hostname, frames, ev);
    if RootCovered(j, links[0]) && CutsCovered(j, Judged(links)) {
      CommittedKeysSign(j, hostname, frames, ev);
    }
    UnexpandedChains(j, owner, links, ev, Validate(j, hostname, frames).value);
    forall s | s in Steps(ev) ensures !Expanded(s.link, s.rrsig) <==> CountsOwnLabels(s.link.owner, s.rrsig.labels) {
      UnexpandedExactly(s.link, s.rrsig);
    }
  }
}
