/**
 Which accepted chains let a zone speak only for names inside it (section 5.3.1 of
 RFC 4035). The validator checks who signed a link but not that the link's owner lies in
 the signer's zone; what decides the matter is where the DS links lead.
 */
module Containment {
  import opened Wire
  import opened Names
  import opened Records
  import opened Links
  import opened Validator
  import opened Soundness

  /** The link stands inside the zone whose keys sign it. */
  ghost predicate Within(h: Hop) {
    IsAncestorOrSelf(Zone(h.trust), h.link.owner)
  }

  ghost predicate Contained(ev: Evidence) {
    (forall h | h in ev.hops :: Within(h)) && Within(ev.leaf)
  }

  /**
   Read off the links alone: the anchored zone lies above each name resolved in turn, and every
   DS link stands at or above the name being resolved when it comes.
   */
  predicate OnBranch(root: Name, name: Name, links: seq<Link>)
    decreases |links|
  {
    && IsAncestorOrSelf(root, name)
    && (links == [] ||
        var link, rest := links[0], links[1..];
        if link.rtype == DS then IsAncestorOrSelf(link.owner, name) && OnBranch(root, name, rest)
        else if link.rtype == TXT then true
        else if link.rtype == CNAME then TargetOf(link).Some? ==> OnBranch(root, TargetOf(link).value, rest)
        else OnBranch(root, name, rest))
  }

  lemma AncestorsChain(a: Name, b: Name, c: Name)
    requires IsAncestorOrSelf(a, b) && IsAncestorOrSelf(b, c)
    ensures IsAncestorOrSelf(a, c)
  {
    forall i | 0 <= i < |a| ensures c[|c| - |a| + i] == a[i] {
      assert b[|b| - |a| + i] == a[i] && c[|c| - |b| + (|b| - |a| + i)] == b[|b| - |a| + i];
    }
  }

  /** Cuts only descend. */
  lemma {:induction false} DescendsBelow(j: Judge, from: Trust, to: Trust)
    requires Trusted(j, to) && Descends(from, to)
    ensures IsAncestorOrSelf(Zone(from), Zone(to))
  {
    hide SignedBy, Anchored, DsMatched, IsAncestorOrSelf;
    if to == from {
      SelfIsAncestor(Zone(to));
    } else {
      DescendsBelow(j, from, to.parent);
      AncestorsChain(Zone(from), Zone(to.parent), Zone(to));
    }
  }

  lemma SelfIsAncestor(name: Name)
    ensures IsAncestorOrSelf(name, name)
  {
  }

  // ----- denial links play no part -----

  lemma {:induction false} JudgedOnBranch(root: Name, name: Name, links: seq<Link>)
    ensures OnBranch(root, name, Judged(links)) == OnBranch(root, name, links)
    decreases |links|
  {
    hide IsAncestorOrSelf, TargetOf;
    if links != [] {
      var link, rest := links[0], links[1..];
      assert !IsDenial(link) ==> Judged(links)[0] == link && Judged(links)[1..] == Judged(rest);
      if link.rtype == CNAME && TargetOf(link).Some? {
        JudgedOnBranch(root, TargetOf(link).value, rest);
      } else {
        JudgedOnBranch(root, name, rest);
        assert OnBranch(root, name, rest) ==> IsAncestorOrSelf(root, name);
        assert IsDenial(link) ==> Judged(links) == Judged(rest);
      }
    }
  }

  // ----- evidence, link by link -----

  lemma {:induction false} PairOnBranch(root: Name, name: Name, ds: Link, child: Link, rest: seq<Link>)
    requires ds.rtype == DS && child.rtype == DNSKEY
    ensures OnBranch(root, name, [ds, child] + rest) <==> IsAncestorOrSelf(ds.owner, name) && OnBranch(root, name, rest)
  {
    hide IsAncestorOrSelf, TargetOf;
    assert ([ds, child] + rest)[1..] == [child] + rest && ([child] + rest)[1..] == rest;
    assert OnBranch(root, name, [child] + rest) <==> OnBranch(root, name, rest);
  }

  /** A descent's DS links all lie above the name exactly when the zone it ends in does. */
  lemma {:induction false} CutsOnBranch(j: Judge, root: Name, from: Trust, t: Trust, name: Name, rest: seq<Link>)
    requires Trusted(j, t) && Descends(from, t)
    ensures OnBranch(root, name, LinksOf(CutSteps(from, t)) + rest) <==>
            (t != from ==> IsAncestorOrSelf(Zone(t), name)) && OnBranch(root, name, rest)
    decreases t
  {
    hide Trusted, Descends, OnBranch, IsAncestorOrSelf, LinksOf, CutSteps, Zone;
    if t == from {
      CutNone(t);
      LinksOfNone();
      assert [] + rest == rest;
    } else {
      var pair := LastCut(j, from, t);
      assert LinksOf(CutSteps(from, t.parent)) + pair + rest == LinksOf(CutSteps(from, t.parent)) + (pair + rest);
      CutsOnBranch(j, root, from, t.parent, name, pair + rest);
      PairOnBranch(root, name, t.ds, t.child, rest);
      if IsAncestorOrSelf(t.ds.owner, name) {
        AncestorsChain(Zone(t.parent), t.ds.owner, name);
      }
    }
  }

  lemma {:induction false} PathOnBranch(j: Judge, root: Trust, from: Trust, name: Name, hops: seq<Hop>, leaf: Hop,
                                        rest: seq<Link>)
    requires Trusted(j, root) && Leads(j, root, from, name, hops, leaf)
    requires IsAncestorOrSelf(Zone(root), Zone(from)) && (from == root || IsAncestorOrSelf(Zone(from), name))
    ensures OnBranch(Zone(root), name, LinksOf(PathSteps(root, from, hops, leaf)) + rest) <==>
            (forall h | h in hops :: Within(h)) && Within(leaf)
    decreases |hops|
  {
    hide Trusted, SignedBy, IsAncestorOrSelf, LinksOf, CutSteps, TargetOf, Descends;
    var here := if hops == [] then leaf else hops[0];
    var later := if hops == [] then [] else PathSteps(root, ResumeAt(root, here), hops[1..], leaf);
    var tail := [here.link] + LinksOf(later) + rest;
    PathLinks(root, from, hops, leaf);
    assert LinksOf(PathSteps(root, from, hops, leaf)) + rest == LinksOf(CutSteps(from, here.trust)) + tail by {
      Reassociate(LinksOf(CutSteps(from, here.trust)), [here.link], LinksOf(later), rest);
    }
    CutsOnBranch(j, Zone(root), from, here.trust, name, tail);
    DescendsBelow(j, from, here.trust);
    AncestorsChain(Zone(root), Zone(from), Zone(here.trust));
    if Within(here) {
      AncestorsChain(Zone(root), Zone(here.trust), name);
    }
    assert tail[0] == here.link && tail[1..] == LinksOf(later) + rest;
    if hops == [] {
      assert OnBranch(Zone(root), name, tail) <==> IsAncestorOrSelf(Zone(root), name);
    } else {
      var resume := ResumeAt(root, here);
      SelfIsAncestor(Zone(root));
      PathOnBranch(j, root, resume, TargetOf(here.link).value, hops[1..], leaf, rest);
      assert forall h :: h in hops <==> h == here || h in hops[1..];
    }
  }

  /**
   An accepted chain is contained exactly when its links stay on the branch of the name being
   resolved. This holds of every evidence for the chain, so it is a fact about the chain.
   */
  lemma {:induction false} ContainedExactly(j: Judge, hostname: Bytes, frames: seq<Bytes>, ev: Evidence)
    requires Validate(j, hostname, frames).Ok? && OnomancyOwner(hostname).Some? && ParseLinks(frames).Ok?
    requires var owner, links := OnomancyOwner(hostname).value, ParseLinks(frames).value;
             Justifies(j, owner, links, ev, Validate(j, hostname, frames).value)
    ensures var owner, links := OnomancyOwner(hostname).value, ParseLinks(frames).value;
            links != [] && (Contained(ev) <==> OnBranch(links[0].owner, owner, links[1..]))
  {
    hide Validate, ParseLinks, OnomancyOwner, Leads, PathSteps, IsIntersection, Trusted, IsAncestorOrSelf, OnBranch;
    hide LinksOf, Judged, Within;
    var owner, links := OnomancyOwner(hostname).value, ParseLinks(frames).value;
    AcceptedSteps(j, hostname, frames, ev);
    var path := LinksOf(PathSteps(ev.root, ev.root, ev.hops, ev.leaf));
    var rest: seq<Link> :| Judged(links[1..]) == path + rest;
    SelfIsAncestor(Zone(ev.root));
    PathOnBranch(j, ev.root, ev.root, owner, ev.hops, ev.leaf, rest);
    JudgedOnBranch(links[0].owner, owner, links[1..]);
  }

  /** So an accepted chain has contained evidence if and only if its links stay on the branch. */
  lemma ContainedChains(j: Judge, hostname: Bytes, frames: seq<Bytes>)
    requires Validate(j, hostname, frames).Ok?
    ensures OnomancyOwner(hostname).Some? && ParseLinks(frames).Ok? && ParseLinks(frames).value != []
    ensures var owner, links := OnomancyOwner(hostname).value, ParseLinks(frames).value;
            OnBranch(links[0].owner, owner, links[1..]) <==>
            exists ev :: Justifies(j, owner, links, ev, Validate(j, hostname, frames).value) && Contained(ev)
  {
    hide Validate, ParseLinks, OnomancyOwner, Justifies, Contained, OnBranch;
    Soundness.Soundness(j, hostname, frames);
    var owner, links := OnomancyOwner(hostname).value, ParseLinks(frames).value;
    var found :| Justifies(j, owner, links, found, Validate(j, hostname, frames).value);
    ContainedExactly(j, hostname, frames, found);
    forall ev | Justifies(j, owner, links, ev, Validate(j, hostname, frames).value)
      ensures Contained(ev) <==> OnBranch(links[0].owner, owner, links[1..])
    {
      ContainedExactly(j, hostname, frames, ev);
    }
  }
}
