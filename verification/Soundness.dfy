/**
 What an accepted chain proves. Trust is defined inductively, with no reference to the
 walk: keys are trusted when an anchor commits to them, or when a trusted zone signs a
 DS set that commits to them. An accepted chain is a path of CNAMEs from the owner name
 to a TXT RRset, each signed under keys trusted in that sense.
 */
module Soundness {
  import opened Wrappers
  import opened Wire
  import opened Names
  import opened Records
  import opened Links
  import opened Dnssec
  import opened Freshness
  import opened Validator
  import opened LeafRecords

  // ----- trust -----

  /** Why a zone's keys are trusted. */
  datatype Trust =
    | RootKeys(link: Link, rrsig: Rrsig)
    | ZoneCut(parent: Trust, ds: Link, dsSig: Rrsig, child: Link, childSig: Rrsig)

  ghost function KeysIn(link: Link): seq<Dnskey> {
    match ParseKeys(link)
    case Ok(keys) => keys
    case Err(_) => []
  }

  ghost function DsIn(link: Link): seq<Ds> {
    match ParseDsSet(link)
    case Ok(dsSet) => dsSet
    case Err(_) => []
  }

  ghost function Zone(t: Trust): Name {
    match t
    case RootKeys(link, _) => link.owner
    case ZoneCut(_, _, _, child, _) => child.owner
  }

  ghost function Keys(t: Trust): seq<Dnskey> {
    match t
    case RootKeys(link, _) => KeysIn(link)
    case ZoneCut(_, _, _, child, _) => KeysIn(child)
  }

  /** One of the link's own signatures, made by the zone, verifies under one of its keys. */
  ghost predicate SignedBy(j: Judge, zone: Name, keys: seq<Dnskey>, link: Link, rrsig: Rrsig) {
    && rrsig in link.signatures
    && Usable(j.crypto, zone, keys, link, rrsig)
    && rrsig.inception <= rrsig.expiration
  }

  ghost predicate Trusted(j: Judge, t: Trust) {
    match t
    case RootKeys(link, rrsig) =>
      && link.rtype == DNSKEY
      && Anchored(j, link.owner, KeysIn(link))
      && SignedBy(j, link.owner, KeysIn(link), link, rrsig)
    case ZoneCut(parent, ds, dsSig, child, childSig) =>
      && Trusted(j, parent)
      && ds.rtype == DS && IsAncestorOrSelf(Zone(parent), ds.owner) && Zone(parent) != ds.owner
      && SignedBy(j, Zone(parent), Keys(parent), ds, dsSig)
      && child.rtype == DNSKEY && child.owner == ds.owner
      && DsMatched(j, child.owner, KeysIn(child), DsIn(ds))
      && SignedBy(j, child.owner, KeysIn(child), child, childSig)
  }

  /** `to` is reached from `from` by zone cuts alone. */
  ghost predicate Descends(from: Trust, to: Trust) {
    to == from || (to.ZoneCut? && Descends(from, to.parent))
  }

  // ----- evidence -----

  /** A link and the signature on it that was used. */
  datatype Step = Step(link: Link, rrsig: Rrsig)

  /** A link at the query target, signed under trusted keys. */
  datatype Hop = Hop(trust: Trust, link: Link, rrsig: Rrsig)

  /** The whole argument: the root keys, the CNAMEs followed, and the TXT leaf. */
  datatype Evidence = Evidence(root: Trust, hops: seq<Hop>, leaf: Hop)

  ghost predicate Attested(j: Judge, h: Hop, name: Name, rtype: nat) {
    && Trusted(j, h.trust)
    && h.link.rtype == rtype && h.link.owner == name
    && SignedBy(j, Zone(h.trust), Keys(h.trust), h.link, h.rrsig)
  }

  function TargetOf(link: Link): Option<Name> {
    if link.rrset == [] then None else ParseCname(link.rrset[0].rdata)
  }

  /** Where descent resumes after a CNAME: the same zone inside its subtree, the root outside. */
  ghost function ResumeAt(root: Trust, h: Hop): Trust {
    match TargetOf(h.link)
    case Some(target) => if IsAncestorOrSelf(Zone(h.trust), target) then h.trust else root
    case None => root
  }

  /** The CNAMEs lead from `name` to the leaf, each descent starting where the last one allows. */
  ghost predicate Leads(j: Judge, root: Trust, from: Trust, name: Name, hops: seq<Hop>, leaf: Hop)
    decreases |hops|
  {
    if hops == [] then
      && Descends(from, leaf.trust)
      && Attested(j, leaf, name, TXT)
      && leaf.rrsig.labels == |name|
    else
      && Descends(from, hops[0].trust)
      && Attested(j, hops[0], name, CNAME)
      && TargetOf(hops[0].link).Some?
      && Leads(j, root, ResumeAt(root, hops[0]), TargetOf(hops[0].link).value, hops[1..], leaf)
  }

  ghost function CutSteps(from: Trust, to: Trust): seq<Step> {
    if to == from || to.RootKeys? then []
    else CutSteps(from, to.parent) + [Step(to.ds, to.dsSig), Step(to.child, to.childSig)]
  }

  ghost function PathSteps(root: Trust, from: Trust, hops: seq<Hop>, leaf: Hop): seq<Step>
    decreases |hops|
  {
    if hops == [] then CutSteps(from, leaf.trust) + [Step(leaf.link, leaf.rrsig)]
    else CutSteps(from, hops[0].trust) + [Step(hops[0].link, hops[0].rrsig)]
         + PathSteps(root, ResumeAt(root, hops[0]), hops[1..], leaf)
  }

  /** Every link verified, in chain order, with the one signature used on it. */
  ghost function Steps(ev: Evidence): seq<Step>
    requires ev.root.RootKeys?
  {
    [Step(ev.root.link, ev.root.rrsig)] + PathSteps(ev.root, ev.root, ev.hops, ev.leaf)
  }

  ghost function LinksOf(steps: seq<Step>): (r: seq<Link>)
    ensures |r| == |steps|
  {
    seq(|steps|, i requires 0 <= i < |steps| => steps[i].link)
  }

  predicate IsDenial(link: Link) {
    link.rtype == NSEC || link.rtype == NSEC3
  }

  /** The links of a chain that the walk judges: all but the denial links it skips. */
  ghost function Judged(links: seq<Link>): seq<Link> {
    if links == [] then []
    else (if IsDenial(links[0]) then [] else [links[0]]) + Judged(links[1..])
  }

  // ----- windows -----

  ghost predicate Covering(rrsig: Rrsig, now: nat) {
    rrsig.inception <= now <= rrsig.expiration
  }

  /** Every signature used was inside its window at `now`. */
  ghost predicate AllCover(steps: seq<Step>, now: nat) {
    forall s | s in steps :: Covering(s.rrsig, now)
  }

  /** `w` is the intersection of the windows of the signatures used. */
  ghost predicate IsIntersection(w: Window, steps: seq<Step>) {
    forall now: nat | now <= FOREVER ::
      Covers(w, now) <==> AllCover(steps, now)
  }

  ghost predicate InRange(w: Window) {
    w.inception <= w.expiration <= FOREVER
  }

  /** `ev` justifies accepting `links` for `owner` with this proof. */
  ghost predicate Justifies(j: Judge, owner: Name, links: seq<Link>, ev: Evidence, proof: ChainProof) {
    && ev.root.RootKeys? && Trusted(j, ev.root)
    && Leads(j, ev.root, ev.root, owner, ev.hops, ev.leaf)
    && |ev.hops| <= MAX_CNAME_HOPS
    && (exists k: nat | k <= |links| :: LinksOf(Steps(ev)) == Judged(links[..k]))
    && Yields(j.canonical, ev.leaf.link.rrset, proof.records)
    && InRange(proof.window) && IsIntersection(proof.window, Steps(ev))
  }

  // ----- the one signature used -----

  lemma {:induction false} TryKeysMeans(c: Crypto, rrsig: Rrsig, link: Link, keys: seq<Dnskey>, last: WalkError)
    ensures TryKeys(c, rrsig, link, keys, last).Ok? <==> exists k | k in keys :: Verify(c, rrsig, link, k).Ok?
  {
    hide Verify;
    if keys != [] {
      assert keys == [keys[0]] + keys[1..];
      if Verify(c, rrsig, link, keys[0]).Err? {
        TryKeysMeans(c, rrsig, link, keys[1..], BadlySigned(Verify(c, rrsig, link, keys[0]).error));
      }
    }
  }

  /** The walk finds a usable signature whenever there is one, and takes the first; hints only reorder keys. */
  lemma {:induction false} FirstUsable(c: Crypto, zone: Name, keys: seq<Dnskey>, link: Link, sigs: seq<Rrsig>,
                                       last: WalkError)
    ensures var r := TrySignatures(c, zone, keys, link, sigs, last);
            && (r.Ok? <==> exists s | s in sigs :: Usable(c, zone, keys, link, s))
            && (r.Ok? ==> exists i | 0 <= i < |sigs| ::
                  sigs[i] == r.value && Usable(c, zone, keys, link, sigs[i])
                  && forall k | 0 <= k < i :: !Usable(c, zone, keys, link, sigs[k]))
  {
    hide Verify, TryKeys;
    if sigs != [] {
      var s := sigs[0];
      var hinted := Hinted(s, keys) + keys;
      TryKeysMeans(c, s, link, hinted, last);
      assert forall k :: k in hinted <==> k in keys;
      assert sigs == [s] + sigs[1..];
      if Usable(c, zone, keys, link, s) {
        assert sigs[0] == s;
      } else {
        var e := if s.signer != zone then SignerMismatch else TryKeys(c, s, link, hinted, last).error;
        FirstUsable(c, zone, keys, link, sigs[1..], e);
        var r := TrySignatures(c, zone, keys, link, sigs[1..], e);
        if r.Ok? {
          var i :| 0 <= i < |sigs[1..]| && sigs[1..][i] == r.value && Usable(c, zone, keys, link, sigs[1..][i])
                   && forall k | 0 <= k < i :: !Usable(c, zone, keys, link, sigs[1..][k]);
          assert sigs[i + 1] == r.value;
          forall k | 0 <= k < i + 1 ensures !Usable(c, zone, keys, link, sigs[k]) {
            if k > 0 { assert sigs[k] == sigs[1..][k - 1]; }
          }
        }
      }
    }
  }

  // ----- the walk carries trust -----

  /** The walk's keys are those of `t`, and its root's those of `root`. */
  ghost predicate Carries(w: Walk, t: Trust, root: Trust) {
    && root.RootKeys?
    && w.zone == Zone(t) && w.keys == Keys(t)
    && w.rootZone == Zone(root) && w.rootKeys == Keys(root)
  }

  /** The walk's window is the intersection of the windows used so far. */
  ghost predicate Accumulates(w: Walk, steps: seq<Step>) {
    InRange(Window(w.lo, w.hi)) && IsIntersection(Window(w.lo, w.hi), steps)
  }

  lemma IntersectMeans(w: Walk, rrsig: Rrsig)
    ensures var r := Intersect(w, rrsig);
            && (r.Ok? ==> rrsig.inception <= rrsig.expiration && r.value == w.(lo := r.value.lo, hi := r.value.hi)
                          && r.value.lo <= r.value.hi <= w.hi
                          && forall now: nat :: r.value.lo <= now <= r.value.hi
                                                <==> w.lo <= now <= w.hi && Covering(rrsig, now))
            && (w.lo <= w.hi ==> (r.Ok? <==> exists now: nat :: w.lo <= now <= w.hi && Covering(rrsig, now)))
  {
    var r := Intersect(w, rrsig);
    if r.Ok? {
      assert w.lo <= w.hi ==> w.lo <= r.value.lo <= w.hi && Covering(rrsig, r.value.lo);
    }
  }

  lemma AccumulatesMore(w: Walk, steps: seq<Step>, step: Step)
    requires Accumulates(w, steps) && Intersect(w, step.rrsig).Ok?
    ensures Accumulates(Intersect(w, step.rrsig).value, steps + [step])
  {
    IntersectMeans(w, step.rrsig);
    var narrowed := Intersect(w, step.rrsig).value;
    forall now: nat | now <= FOREVER
      ensures Covers(Window(narrowed.lo, narrowed.hi), now) <==> AllCover(steps + [step], now)
    {
      assert narrowed.lo <= now <= narrowed.hi <==> Covers(Window(w.lo, w.hi), now) && Covering(step.rrsig, now);
      assert forall s :: s in steps + [step] <==> s in steps || s == step;
      assert step in steps + [step];
    }
  }

  /** What a verified link establishes. */
  lemma {:induction false} Verified(j: Judge, w: Walk, link: Link, steps: seq<Step>)
    requires VerifySignedLink(j, w, link).Ok? && Accumulates(w, steps)
    ensures var (narrowed, rrsig) := VerifySignedLink(j, w, link).value;
            && SignedBy(j, w.zone, w.keys, link, rrsig)
            && narrowed == w.(lo := narrowed.lo, hi := narrowed.hi)
            && Accumulates(narrowed, steps + [Step(link, rrsig)])
  {
    hide TrySignatures, Intersect, Accumulates, Usable;
    var (narrowed, rrsig) := VerifySignedLink(j, w, link).value;
    FirstUsable(j.crypto, w.zone, w.keys, link, link.signatures, NoUsableSignature);
    IntersectMeans(w, rrsig);
    AccumulatesMore(w, steps, Step(link, rrsig));
  }

  ghost function Depth(t: Trust): nat {
    if t.RootKeys? then 0 else 1 + Depth(t.parent)
  }

  lemma {:induction false} DescendsDepth(from: Trust, to: Trust)
    requires Descends(from, to)
    ensures Depth(from) <= Depth(to)
  {
    if to != from {
      DescendsDepth(from, to.parent);
    }
  }

  /** One more cut extends the descent and its steps. */
  lemma {:induction false} CutExtends(from: Trust, t: Trust, ds: Link, dsSig: Rrsig, child: Link, childSig: Rrsig)
    requires Descends(from, t)
    ensures var cut := ZoneCut(t, ds, dsSig, child, childSig);
            Descends(from, cut) && CutSteps(from, cut) == CutSteps(from, t) + [Step(ds, dsSig), Step(child, childSig)]
  {
    DescendsDepth(from, t);
    var cut := ZoneCut(t, ds, dsSig, child, childSig);
    assert Depth(cut) > Depth(from);
  }

  lemma CutNone(t: Trust)
    ensures Descends(t, t) && CutSteps(t, t) == []
  {
  }

  lemma LinksOfAppend(a: seq<Step>, b: seq<Step>)
    ensures LinksOf(a + b) == LinksOf(a) + LinksOf(b)
  {
  }

  lemma LinksOfOne(step: Step)
    ensures LinksOf([step]) == [step.link]
  {
  }

  lemma LinksOfPair(pair: seq<Step>)
    requires |pair| == 2
    ensures LinksOf(pair) == [pair[0].link, pair[1].link]
  {
  }

  lemma JudgedNone(links: seq<Link>)
    ensures Judged(links[..0]) == []
  {
  }

  lemma JudgedCons(links: seq<Link>, k: nat)
    requires links != [] && k < |links|
    ensures Judged(links[..k + 1]) == (if IsDenial(links[0]) then [] else [links[0]]) + Judged(links[1..][..k])
  {
    assert links[..k + 1][1..] == links[1..][..k];
  }

  /** A DS link is followed by the child's keys, and the pair is one trusted cut. */
  lemma {:induction false} CrossCut(j: Judge, p: Progress, root: Trust, t: Trust, done: seq<Step>, links: seq<Link>)
    returns (cut: Trust, next: Progress)
    requires p.pending.None? && links != [] && links[0].rtype == DS && WalkLinks(j, p, links).Ok?
    requires Trusted(j, t) && Carries(p.walk, t, root) && Accumulates(p.walk, done)
    ensures |links| >= 2 && links[1].rtype == DNSKEY && cut.ZoneCut? && cut.parent == t && cut.ds == links[0] &&
            cut.child == links[1]
    ensures Trusted(j, cut) && Carries(next.walk, cut, root)
    ensures next == p.(walk := next.walk) && WalkLinks(j, next, links[2..]) == WalkLinks(j, p, links)
    ensures Accumulates(next.walk, done + [Step(cut.ds, cut.dsSig), Step(cut.child, cut.childSig)])
  {
    hide VerifySignedLink, Accumulates, Usable, ParseKeys, ParseDsSet, DsMatched, FollowCname, FinishBinding;
    var ds := links[0];
    var (w1, dsSig) := VerifySignedLink(j, p.walk, ds).value;
    Verified(j, p.walk, ds, done);
    var (_, pending) := VerifyDelegation(j, p.walk, ds).value;
    var p1 := p.(walk := w1, pending := Some(pending));
    assert WalkLinks(j, p, links) == WalkLinks(j, p1, links[1..]);
    var child := links[1];
    var w2 := w1.(zone := pending.child, keys := KeysIn(child));
    assert TakeLink(j, p1, child).Ok? && child.rtype == DNSKEY;
    var (w3, childSig) := VerifySignedLink(j, w2, child).value;
    AccumulatesElsewhere(w1, w2, done + [Step(ds, dsSig)]);
    Verified(j, w2, child, done + [Step(ds, dsSig)]);
    cut := ZoneCut(t, ds, dsSig, child, childSig);
    next := p1.(walk := w3, pending := None);
    assert links[1..][1..] == links[2..];
    assert done + [Step(ds, dsSig)] + [Step(child, childSig)] == done + [Step(ds, dsSig), Step(child, childSig)];
  }

  lemma AccumulatesElsewhere(w: Walk, other: Walk, steps: seq<Step>)
    requires Accumulates(w, steps) && w.lo == other.lo && w.hi == other.hi
    ensures Accumulates(other, steps)
  {
  }

  /** A CNAME link is one hop under the trusted keys, and descent resumes where `ResumeAt` says. */
  lemma {:induction false} FollowHop(j: Judge, p: Progress, root: Trust, t: Trust, done: seq<Step>, links: seq<Link>)
    returns (hop: Hop, next: Progress)
    requires p.pending.None? && links != [] && links[0].rtype == CNAME && WalkLinks(j, p, links).Ok?
    requires Trusted(j, t) && Carries(p.walk, t, root) && Accumulates(p.walk, done)
    ensures hop.trust == t && hop.link == links[0] && Attested(j, hop, p.target, CNAME)
    ensures TargetOf(hop.link) == Some(next.target) && Carries(next.walk, ResumeAt(root, hop), root)
    ensures p.hops < MAX_CNAME_HOPS && next.hops == p.hops + 1 && next.pending.None?
    ensures WalkLinks(j, next, links[1..]) == WalkLinks(j, p, links)
    ensures Accumulates(next.walk, done + [Step(hop.link, hop.rrsig)])
  {
    hide VerifySignedLink, Accumulates, Usable, ParseCname, VerifyDelegation, CrossInto, FinishBinding, Trusted;
    hide IsAncestorOrSelf, Keys, Zone;
    var link := links[0];
    var (w1, rrsig) := VerifySignedLink(j, p.walk, link).value;
    Verified(j, p.walk, link, done);
    hop := Hop(t, link, rrsig);
    var target := TargetOf(link).value;
    next := p.(walk := Reroot(w1, target), target := target, hops := p.hops + 1);
    AccumulatesElsewhere(w1, next.walk, done + [Step(link, rrsig)]);
  }

  /** The TXT link is the leaf, signed over its own owner name rather than a wildcard. */
  lemma {:induction false} ReachLeaf(j: Judge, p: Progress, root: Trust, t: Trust, done: seq<Step>,
                                     links: seq<Link>) returns (leaf: Hop)
    requires p.pending.None? && links != [] && links[0].rtype == TXT && WalkLinks(j, p, links).Ok?
    requires Trusted(j, t) && Carries(p.walk, t, root) && Accumulates(p.walk, done)
    ensures leaf.trust == t && leaf.link == links[0] && Attested(j, leaf, p.target, TXT)
    ensures leaf.rrsig.labels == |p.target|
    ensures var proof := WalkLinks(j, p, links).value;
            && Yields(j.canonical, leaf.link.rrset, proof.records)
            && InRange(proof.window) && IsIntersection(proof.window, done + [Step(leaf.link, leaf.rrsig)])
  {
    hide VerifySignedLink, ParseBindings, Yields, Usable, IsIntersection, VerifyDelegation, CrossInto;
    hide FollowCname, Trusted;
    var link := links[0];
    var (w1, rrsig) := VerifySignedLink(j, p.walk, link).value;
    Verified(j, p.walk, link, done);
    leaf := Hop(t, link, rrsig);
    UsableLabels(j, w1.zone, w1.keys, link, rrsig);
    BindingsYield(j.canonical, link.rrset);
  }

  lemma {:induction false} UsableLabels(j: Judge, zone: Name, keys: seq<Dnskey>, link: Link, rrsig: Rrsig)
    requires Usable(j.crypto, zone, keys, link, rrsig)
    ensures rrsig.labels <= |link.owner|
  {
  }

  lemma ResumesTrusted(j: Judge, root: Trust, hop: Hop)
    requires Trusted(j, root) && Trusted(j, hop.trust)
    ensures Trusted(j, ResumeAt(root, hop))
  {
  }

  lemma {:induction false} PathHop(before: seq<Step>, root: Trust, from: Trust, hop: Hop, rest: seq<Hop>, leaf: Hop)
    ensures before + PathSteps(root, from, [hop] + rest, leaf)
            == before + CutSteps(from, hop.trust) + [Step(hop.link, hop.rrsig)]
               + PathSteps(root, ResumeAt(root, hop), rest, leaf)
  {
    assert ([hop] + rest)[1..] == rest;
  }

  lemma {:induction false} PathLeaf(before: seq<Step>, root: Trust, from: Trust, leaf: Hop)
    ensures before + PathSteps(root, from, [], leaf)
            == before + CutSteps(from, leaf.trust) + [Step(leaf.link, leaf.rrsig)]
  {
  }

  lemma {:induction false} LeadsHop(j: Judge, root: Trust, from: Trust, name: Name, hop: Hop, rest: seq<Hop>, leaf: Hop)
    requires Descends(from, hop.trust) && Attested(j, hop, name, CNAME) && TargetOf(hop.link).Some?
    requires Leads(j, root, ResumeAt(root, hop), TargetOf(hop.link).value, rest, leaf)
    ensures Leads(j, root, from, name, [hop] + rest, leaf)
  {
    assert ([hop] + rest)[1..] == rest;
  }

  lemma {:induction false} LeadsLeaf(j: Judge, root: Trust, from: Trust, name: Name, leaf: Hop)
    requires Descends(from, leaf.trust) && Attested(j, leaf, name, TXT) && leaf.rrsig.labels == |name|
    ensures Leads(j, root, from, name, [], leaf)
  {
  }

  /** Evidence for what is left of a chain, `done` being the steps already taken of `before` and the descent. */
  ghost predicate Concludes(j: Judge, p: Progress, root: Trust, from: Trust, before: seq<Step>, done: seq<Step>,
                            links: seq<Link>, hops: seq<Hop>, leaf: Hop, k: nat, r: Result<ChainProof, WalkError>)
  {
    && Leads(j, root, from, p.target, hops, leaf) && p.hops + |hops| <= MAX_CNAME_HOPS
    && k <= |links|
    && LinksOf(before + PathSteps(root, from, hops, leaf)) == LinksOf(done) + Judged(links[..k])
    && r.Ok? && Yields(j.canonical, leaf.link.rrset, r.value.records)
    && InRange(r.value.window)
    && IsIntersection(r.value.window, before + PathSteps(root, from, hops, leaf))
  }

  lemma {:induction false} AfterCut(j: Judge, p: Progress, next: Progress, root: Trust, from: Trust, before: seq<Step>,
                                    done: seq<Step>, pair: seq<Step>, links: seq<Link>, hops: seq<Hop>, leaf: Hop,
                                    k: nat, r: Result<ChainProof, WalkError>)
    requires |links| >= 2 && next.target == p.target && next.hops == p.hops
    requires |pair| == 2 && pair[0].link == links[0] && pair[1].link == links[1]
    requires !IsDenial(links[0]) && !IsDenial(links[1])
    requires Concludes(j, next, root, from, before, done + pair, links[2..], hops, leaf, k, r)
    ensures Concludes(j, p, root, from, before, done, links, hops, leaf, k + 2, r)
  {
    hide Leads, PathSteps, IsIntersection, InRange, Attested, Descends, LinksOf, Judged, Yields;
    LinksOfAppend(done, pair);
    LinksOfPair(pair);
    JudgedCons(links, k + 1);
    JudgedCons(links[1..], k);
    assert links[1..][1..] == links[2..];
    assert LinksOf(done) + [links[0], links[1]] + Judged(links[2..][..k])
           == LinksOf(done) + ([links[0]] + ([links[1]] + Judged(links[2..][..k])));
  }

  lemma {:induction false} AfterDenial(j: Judge, p: Progress, root: Trust, from: Trust, before: seq<Step>,
                                       done: seq<Step>, links: seq<Link>, hops: seq<Hop>, leaf: Hop, k: nat,
                                       r: Result<ChainProof, WalkError>)
    requires links != [] && IsDenial(links[0])
    requires Concludes(j, p, root, from, before, done, links[1..], hops, leaf, k, r)
    ensures Concludes(j, p, root, from, before, done, links, hops, leaf, k + 1, r)
  {
    hide Leads, PathSteps, IsIntersection, InRange, Attested, Descends, LinksOf, Judged, Yields;
    JudgedCons(links, k);
  }

  lemma {:induction false} AfterHop(j: Judge, p: Progress, next: Progress, root: Trust, from: Trust, before: seq<Step>,
                                    done: seq<Step>, hop: Hop, links: seq<Link>, rest: seq<Hop>, leaf: Hop, k: nat,
                                    r: Result<ChainProof, WalkError>)
    requires links != [] && !IsDenial(links[0]) && hop.link == links[0] && next.hops == p.hops + 1
    requires Descends(from, hop.trust) && Attested(j, hop, p.target, CNAME) && TargetOf(hop.link) == Some(next.target)
    requires done == before + CutSteps(from, hop.trust)
    requires var step := Step(hop.link, hop.rrsig);
             Concludes(j, next, root, ResumeAt(root, hop), done + [step], done + [step], links[1..], rest, leaf, k, r)
    ensures Concludes(j, p, root, from, before, done, links, [hop] + rest, leaf, k + 1, r)
  {
    hide Leads, PathSteps, IsIntersection, InRange, Attested, Descends, LinksOf, Judged, Yields, CutSteps,
         ResumeAt;
    var step := Step(hop.link, hop.rrsig);
    LeadsHop(j, root, from, p.target, hop, rest, leaf);
    PathHop(before, root, from, hop, rest, leaf);
    LinksOfAppend(done, [step]);
    LinksOfOne(step);
    JudgedCons(links, k);
    assert LinksOf(done) + [links[0]] + Judged(links[1..][..k]) ==
        LinksOf(done) + ([links[0]] + Judged(links[1..][..k]));
  }

  lemma {:induction false} AtLeaf(j: Judge, p: Progress, root: Trust, from: Trust, before: seq<Step>, done: seq<Step>,
                                  leaf: Hop, links: seq<Link>, r: Result<ChainProof, WalkError>)
    requires links != [] && !IsDenial(links[0]) && leaf.link == links[0] && p.hops <= MAX_CNAME_HOPS
    requires Descends(from, leaf.trust) && Attested(j, leaf, p.target, TXT) && leaf.rrsig.labels == |p.target|
    requires done == before + CutSteps(from, leaf.trust)
    requires r.Ok? && Yields(j.canonical, leaf.link.rrset, r.value.records)
    requires InRange(r.value.window) && IsIntersection(r.value.window, done + [Step(leaf.link, leaf.rrsig)])
    ensures Concludes(j, p, root, from, before, done, links, [], leaf, 1, r)
  {
    hide Leads, PathSteps, IsIntersection, InRange, Attested, Descends, LinksOf, Judged, Yields, CutSteps;
    var step := Step(leaf.link, leaf.rrsig);
    LeadsLeaf(j, root, from, p.target, leaf);
    PathLeaf(before, root, from, leaf);
    LinksOfAppend(done, [step]);
    LinksOfOne(step);
    JudgedCons(links, 0);
    JudgedNone(links[1..]);
    assert [links[0]] + [] == [links[0]];
  }

  /** An accepted remainder of a chain is justified by the trust it starts from. */
  lemma {:induction false} SoundFrom(j: Judge, p: Progress, root: Trust, from: Trust, t: Trust, before: seq<Step>,
                                     links: seq<Link>)
    returns (hops: seq<Hop>, leaf: Hop, k: nat)
    requires p.pending.None? && p.hops <= MAX_CNAME_HOPS && WalkLinks(j, p, links).Ok?
    requires Trusted(j, root) && Trusted(j, t) && Descends(from, t) && Carries(p.walk, t, root)
    requires Accumulates(p.walk, before + CutSteps(from, t))
    ensures Concludes(j, p, root, from, before, before + CutSteps(from, t), links, hops, leaf, k,
                      WalkLinks(j, p, links))
    decreases |links|
  {
    hide Trusted, Accumulates, VerifyDelegation, CrossInto, FollowCname, FinishBinding, Yields;
    hide Leads, PathSteps, CutSteps, Attested, ResumeAt, Carries, IsIntersection, Descends, Concludes;
    var done := before + CutSteps(from, t);
    var link, r := links[0], WalkLinks(j, p, links);
    if link.rtype == DS {
      var cut, next := CrossCut(j, p, root, t, done, links);
      CutExtends(from, t, cut.ds, cut.dsSig, cut.child, cut.childSig);
      var pair := [Step(cut.ds, cut.dsSig), Step(cut.child, cut.childSig)];
      assert before + CutSteps(from, cut) == done + pair;
      hops, leaf, k := SoundFrom(j, next, root, from, cut, before, links[2..]);
      AfterCut(j, p, next, root, from, before, done, pair, links, hops, leaf, k, r);
      k := k + 2;
    } else if IsDenial(link) {
      hops, leaf, k := SoundFrom(j, p, root, from, t, before, links[1..]);
      AfterDenial(j, p, root, from, before, done, links, hops, leaf, k, r);
      k := k + 1;
    } else if link.rtype == CNAME {
      var hop, next := FollowHop(j, p, root, t, done, links);
      var resume, step := ResumeAt(root, hop), Step(hop.link, hop.rrsig);
      ResumesTrusted(j, root, hop);
      CutNone(resume);
      assert done + [step] + CutSteps(resume, resume) == done + [step];
      hops, leaf, k := SoundFrom(j, next, root, resume, resume, done + [step], links[1..]);
      AfterHop(j, p, next, root, from, before, done, hop, links, hops, leaf, k, r);
      hops, k := [hop] + hops, k + 1;
    } else {
      assert link.rtype == TXT;
      leaf := ReachLeaf(j, p, root, t, done, links);
      AtLeaf(j, p, root, from, before, done, leaf, links, r);
      hops, k := [], 1;
    }
  }

  lemma NothingUsedYet(owner: Name, keys: seq<Dnskey>)
    ensures Accumulates(Walk(owner, keys, owner, keys, 0, FOREVER), [])
  {
  }

  /**
   Soundness. Whenever the validator accepts, evidence exists: root keys an anchor
   commits to, DS-matched and self-signed cuts strictly descending from them, at most
   eight CNAMEs and a TXT leaf each signed under keys trusted there, leading from the
   owner name to the records returned. The links judged are the evidence's own, in
   order, and the window is the intersection of the one signature used on each.
   */
  lemma Soundness(j: Judge, hostname: Bytes, frames: seq<Bytes>)
    requires Validate(j, hostname, frames).Ok?
    ensures OnomancyOwner(hostname).Some? && ParseLinks(frames).Ok?
    ensures exists ev :: Justifies(j, OnomancyOwner(hostname).value, ParseLinks(frames).value, ev,
                                   Validate(j, hostname, frames).value)
  {
    hide VerifySignedLink, ParseLinks, OnomancyOwner, Anchored, ParseKeys, IsIntersection, Usable, WalkLinks, Leads;
    var links := ParseLinks(frames).value;
    var owner := OnomancyOwner(hostname).value;
    var link := links[0];
    var keys := KeysIn(link);
    var start := Walk(link.owner, keys, link.owner, keys, 0, FOREVER);
    var (walk, rrsig) := VerifySignedLink(j, start, link).value;
    NothingUsedYet(link.owner, keys);
    Verified(j, start, link, []);
    var root := RootKeys(link, rrsig);
    var first := [Step(link, rrsig)];
    assert [] + first == first && first + CutSteps(root, root) == first;
    var hops, leaf, k := SoundFrom(j, Progress(walk, owner, None, 0), root, root, root, first, links[1..]);
    var ev := Evidence(root, hops, leaf);
    JudgedCons(links, k);
    LinksOfAppend(first, []);
    assert LinksOf(Steps(ev)) == Judged(links[..k + 1]);
    assert Justifies(j, owner, links, ev, Validate(j, hostname, frames).value);
  }

  // ----- evidence, link by link -----

  lemma {:induction false} LastCut(j: Judge, from: Trust, t: Trust) returns (pair: seq<Link>)
    requires Trusted(j, t) && Descends(from, t) && t != from
    ensures t.ZoneCut? && Trusted(j, t.parent) && Descends(from, t.parent)
    ensures pair == [t.ds, t.child] && t.ds.rtype == DS && t.child.rtype == DNSKEY
    ensures LinksOf(CutSteps(from, t)) == LinksOf(CutSteps(from, t.parent)) + pair
    ensures IsAncestorOrSelf(Zone(t.parent), t.ds.owner) && Zone(t) == t.ds.owner
  {
    hide SignedBy, Anchored, DsMatched, IsAncestorOrSelf, LinksOf;
    var steps := [Step(t.ds, t.dsSig), Step(t.child, t.childSig)];
    LinksOfAppend(CutSteps(from, t.parent), steps);
    LinksOfPair(steps);
    pair := [t.ds, t.child];
  }

  lemma {:induction false} JudgedAppend(a: seq<Link>, b: seq<Link>)
    ensures Judged(a + b) == Judged(a) + Judged(b)
  {
    if a == [] {
      assert a + b == b;
    } else {
      assert (a + b)[1..] == a[1..] + b;
      JudgedAppend(a[1..], b);
      var first := if IsDenial(a[0]) then [] else [a[0]];
      assert first + (Judged(a[1..]) + Judged(b)) == first + Judged(a[1..]) + Judged(b);
    }
  }

  lemma LinksOfNone()
    ensures LinksOf([]) == []
  {
  }

  lemma {:induction false} Reassociate(a: seq<Link>, b: seq<Link>, c: seq<Link>, d: seq<Link>)
    ensures a + b + c + d == a + (b + c + d)
  {
  }

  /** The links of a path: those of the first descent, the link it ends at, and the rest. */
  lemma {:induction false} PathLinks(root: Trust, from: Trust, hops: seq<Hop>, leaf: Hop)
    ensures var here := if hops == [] then leaf else hops[0];
            var later := if hops == [] then [] else PathSteps(root, ResumeAt(root, here), hops[1..], leaf);
            LinksOf(PathSteps(root, from, hops, leaf)) ==
            LinksOf(CutSteps(from, here.trust)) + [here.link] + LinksOf(later)
  {
    hide LinksOf, CutSteps, ResumeAt;
    var here := if hops == [] then leaf else hops[0];
    var step := Step(here.link, here.rrsig);
    var later := if hops == [] then [] else PathSteps(root, ResumeAt(root, here), hops[1..], leaf);
    assert CutSteps(from, here.trust) + [step] + [] == CutSteps(from, here.trust) + [step];
    LinksOfAppend(CutSteps(from, here.trust), [step]);
    LinksOfAppend(CutSteps(from, here.trust) + [step], later);
    LinksOfOne(step);
  }

  lemma JudgedFirst(links: seq<Link>)
    requires links != [] && !IsDenial(links[0])
    ensures Judged(links) == [links[0]] + Judged(links[1..])
  {
  }

  lemma {:induction false} SplitFirst(x: Link, xs: seq<Link>, y: Link, ys: seq<Link>, zs: seq<Link>)
    requires [x] + xs == [y] + ys + zs
    ensures x == y && xs == ys + zs
  {
    assert ([x] + xs)[0] == x && ([y] + ys + zs)[0] == y;
    assert ([x] + xs)[1..] == xs && ([y] + ys + zs)[1..] == ys + zs;
  }

  /** An accepted chain's judged links are the evidence's, the anchored key set first. */
  lemma {:induction false} AcceptedSteps(j: Judge, hostname: Bytes, frames: seq<Bytes>, ev: Evidence)
    requires Validate(j, hostname, frames).Ok? && OnomancyOwner(hostname).Some? && ParseLinks(frames).Ok?
    requires var owner, links := OnomancyOwner(hostname).value, ParseLinks(frames).value;
             Justifies(j, owner, links, ev, Validate(j, hostname, frames).value)
    ensures var links := ParseLinks(frames).value;
            && links != [] && links[0] == ev.root.link && Judged(links) == [links[0]] + Judged(links[1..])
            && exists rest ::
                 && Judged(links) == [links[0]] + LinksOf(PathSteps(ev.root, ev.root, ev.hops, ev.leaf)) + rest
                 && Judged(links[1..]) == LinksOf(PathSteps(ev.root, ev.root, ev.hops, ev.leaf)) + rest
  {
    hide ParseLinks, OnomancyOwner, VerifySignedLink, ParseKeys, Anchored, WalkLinks, Leads, PathSteps, IsIntersection;
    hide Trusted, LinksOf, Judged;
    var links := ParseLinks(frames).value;
    assert links != [] && links[0].rtype == DNSKEY;
    var k: nat :| k <= |links| && LinksOf(Steps(ev)) == Judged(links[..k]);
    var rest := Judged(links[k..]);
    JudgedAppend(links[..k], links[k..]);
    assert links == links[..k] + links[k..];
    JudgedFirst(links);
    var path := PathSteps(ev.root, ev.root, ev.hops, ev.leaf);
    var first := Step(ev.root.link, ev.root.rrsig);
    LinksOfAppend([first], path);
    LinksOfOne(first);
    assert Judged(links) == [ev.root.link] + LinksOf(path) + rest;
    SplitFirst(links[0], Judged(links[1..]), ev.root.link, LinksOf(path), rest);
  }

  /**
   The grade of an accepted chain is the joint standing of the signatures it used:
   fresh exactly when every one covers the instant, not yet begun exactly when some one
   has not begun, stale exactly when all have begun and some one has lapsed.
   */
  lemma GradeMeans(w: Window, steps: seq<Step>, now: nat)
    requires InRange(w) && IsIntersection(w, steps) && now <= FOREVER
    ensures GradeAt(w, now) == Fresh <==> AllCover(steps, now)
    ensures GradeAt(w, now) == NotYetBegun <==> exists s | s in steps :: now < s.rrsig.inception
    ensures GradeAt(w, now) == Stale <==>
            (forall s | s in steps :: s.rrsig.inception <= now) && exists s | s in steps :: s.rrsig.expiration < now
  {
    assert Covers(w, now) <==> AllCover(steps, now);
    assert Covers(w, w.inception) && Covers(w, w.expiration);
    assert AllCover(steps, w.inception) && AllCover(steps, w.expiration);
    if now < w.inception {
      var s :| s in steps && !Covering(s.rrsig, now);
      assert Covering(s.rrsig, w.inception);
    }
  }

  /** An accepted chain grades fresh exactly while every signature it used is inside its window. */
  lemma {:induction false} AcceptedGrade(j: Judge, hostname: Bytes, frames: seq<Bytes>, now: nat) returns (ev: Evidence)
    requires Validate(j, hostname, frames).Ok? && now <= FOREVER
    ensures OnomancyOwner(hostname).Some? && ParseLinks(frames).Ok?
    ensures var owner, links := OnomancyOwner(hostname).value, ParseLinks(frames).value;
            Justifies(j, owner, links, ev, Validate(j, hostname, frames).value)
    ensures var window := Validate(j, hostname, frames).value.window;
            && (GradeAt(window, now) == Fresh <==> AllCover(Steps(ev), now))
            && (GradeAt(window, now) == NotYetBegun <==> exists s | s in Steps(ev) :: now < s.rrsig.inception)
  {
    hide Validate, ParseLinks, OnomancyOwner, Trusted, Leads, IsIntersection, AllCover, Steps, GradeAt;
    Soundness(j, hostname, frames);
    var owner, links := OnomancyOwner(hostname).value, ParseLinks(frames).value;
    ev :| Justifies(j, owner, links, ev, Validate(j, hostname, frames).value);
    GradeMeans(Validate(j, hostname, frames).value.window, Steps(ev), now);
  }
}
