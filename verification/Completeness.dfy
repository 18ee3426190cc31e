/**
 End to end: for a tree of signed zones answered faithfully, the chain the builder
 finishes is one the validator accepts, and it proves the TXT RRset at the end of the
 CNAME path.
 */
module Completeness {
  import opened Wrappers
  import opened Wire
  import opened Names
  import opened Records
  import opened Links
  import opened Dnssec
  import opened Freshness
  import opened Validator
  import opened LeafRecords
  import opened Builder
  import opened BuilderRuns
  import opened Agreement
  import S = Soundness

  /**
   A tree of signed zones seen through a resolver: the zone cuts, what each question
   answers, an instant every signature covers, and the CNAME path from the owner name.
   */
  datatype World = World(cuts: set<Name>, resolve: Question -> seq<Record>, now: nat, path: seq<Name>)

  // ----- zones -----

  /** The deepest cut at or above a name. */
  function Apex(cuts: set<Name>, name: Name): Name {
    if name == [] || name in cuts then name else Apex(cuts, name[1..])
  }

  lemma AboveItsRest(zone: Name, name: Name)
    requires name != [] && IsAncestorOrSelf(zone, name[1..])
    ensures IsAncestorOrSelf(zone, name)
  {
    var above := name[1..];
    forall i | 0 <= i < |zone| ensures name[|name| - |zone| + i] == zone[i] {
      assert above[|above| - |zone| + i] == zone[i];
    }
  }

  lemma {:induction false} ApexIsAncestor(cuts: set<Name>, name: Name)
    ensures IsAncestorOrSelf(Apex(cuts, name), name)
  {
    assert IsAncestorOrSelf(name, name);
    hide IsAncestorOrSelf;
    if name != [] && name !in cuts {
      ApexIsAncestor(cuts, name[1..]);
      AboveItsRest(Apex(cuts, name), name);
    }
  }

  lemma {:induction false} ApexIsCut(cuts: set<Name>, name: Name)
    requires ROOT in cuts
    ensures Apex(cuts, name) in cuts
  {
    if name != [] && name !in cuts {
      ApexIsCut(cuts, name[1..]);
    }
  }

  /** One label deeper, the apex is the new suffix if that is a cut and the old apex if not. */
  lemma ApexDeeper(cuts: set<Name>, name: Name, depth: nat)
    requires 1 <= depth <= |name|
    ensures var suffix := TrimTo(name, depth);
            && suffix != [] && suffix[1..] == TrimTo(name, depth - 1)
            && Apex(cuts, suffix) == if suffix in cuts then suffix else Apex(cuts, TrimTo(name, depth - 1))
  {
    var suffix := TrimTo(name, depth);
    assert suffix[1..] == TrimTo(name, depth - 1);
  }

  // ----- faithful answers -----

  function KeyAnswer(w: World, zone: Name): seq<Record> {
    w.resolve(Question(zone, DNSKEY))
  }

  function DsAnswer(w: World, zone: Name): seq<Record> {
    w.resolve(Question(zone, DS))
  }

  /** The reading of one RRSIG record, for records that have one. */
  ghost function RrsigIn(r: Record): Rrsig {
    match ParseRrsig(r.rdata)
    case Ok(rrsig) => rrsig
    case Err(_) => Rrsig(0, 0, 0, 0, 0, 0, 0, ROOT, [], [])
  }

  ghost function ReadSignatures(sigs: seq<Record>): seq<Rrsig> {
    seq(|sigs|, i requires 0 <= i < |sigs| => RrsigIn(sigs[i]))
  }

  /** The RRset an answer holds at an owner, as a link. */
  ghost function LinkIn(answers: seq<Record>, owner: Name, rtype: nat): Link {
    Link(owner, DataOf(answers, owner, rtype), rtype, ReadSignatures(SignaturesOf(answers, owner, rtype)))
  }

  /** The keys a zone publishes. */
  ghost function KeysAt(w: World, zone: Name): seq<Dnskey> {
    match ParseAll(ParseDnskey, DataOf(KeyAnswer(w, zone), zone, DNSKEY))
    case Some(keys) => keys
    case None => []
  }

  ghost function DsAt(w: World, zone: Name): seq<Ds> {
    match ParseAll(ParseDs, DataOf(DsAnswer(w, zone), zone, DS))
    case Some(dsSet) => dsSet
    case None => []
  }

  /** An answer holds this RRset, signed by `zone` with some signature usable and all of them covering `now`. */
  ghost predicate Signed(j: Judge, w: World, answers: seq<Record>, owner: Name, rtype: nat, zone: Name) {
    && ValidAnswers(answers)
    && DataOf(answers, owner, rtype) != [] && SignaturesOf(answers, owner, rtype) != []
    && (forall r | r in DataOf(answers, owner, rtype) + SignaturesOf(answers, owner, rtype) :: r.class_ == CLASS_IN)
    && (forall s | s in SignaturesOf(answers, owner, rtype) :: ParseRrsig(s.rdata).Ok?)
    && var link := LinkIn(answers, owner, rtype);
       && (exists s | s in link.signatures :: Usable(j.crypto, zone, KeysAt(w, zone), link, s))
       && (forall s | s in link.signatures :: s.inception <= w.now <= s.expiration)
  }

  /** Each zone signs its own keys; the root's match an anchor; each other cut is committed to by the zone above. */
  ghost predicate FaithfulZones(j: Judge, w: World) {
    && ROOT in w.cuts
    && Anchored(j, ROOT, KeysAt(w, ROOT))
    && (forall zone | zone in w.cuts ::
          && ParseAll(ParseDnskey, DataOf(KeyAnswer(w, zone), zone, DNSKEY)).Some?
          && Signed(j, w, KeyAnswer(w, zone), zone, DNSKEY, zone))
    && (forall zone | zone in w.cuts && zone != ROOT ::
          && ParseAll(ParseDs, DataOf(DsAnswer(w, zone), zone, DS)).Some?
          && DsMatched(j, zone, KeysAt(w, zone), DsAt(w, zone))
          && Signed(j, w, DsAnswer(w, zone), zone, DS, Apex(w.cuts, zone[1..])))
    && (forall name: Name | name !in w.cuts :: !HasData(DsAnswer(w, name), name, DS))
  }

  function OwnerOf(w: World): Name {
    if w.path == [] then ROOT else w.path[0]
  }

  function LastOf(w: World): Name {
    if w.path == [] then ROOT else w.path[|w.path| - 1]
  }

  function LeafAnswer(w: World): seq<Record> {
    w.resolve(Question(OwnerOf(w), TXT))
  }

  /**
   After a CNAME to the root the path ends, or goes on to a name outside the zone it left; there
   the builder and the validator part (`RootTargets.RootTargetRefused`).
   */
  ghost predicate LeavesRoot(w: World, i: nat)
    requires i + 1 < |w.path|
  {
    var zone := Apex(w.cuts, w.path[i]);
    i + 2 == |w.path| || zone == ROOT || !IsAncestorOrSelf(zone, w.path[i + 2])
  }

  ghost predicate FaithfulHop(j: Judge, w: World, i: nat)
    requires i + 1 < |w.path|
  {
    var name, target := w.path[i], w.path[i + 1];
    && (target == ROOT ==> name != ROOT && LeavesRoot(w, i))
    && !HasData(LeafAnswer(w), name, TXT)
    && Signed(j, w, LeafAnswer(w), name, CNAME, Apex(w.cuts, name))
    && ParseCname(DataOf(LeafAnswer(w), name, CNAME)[0].rdata) == Some(target)
  }

  /** One answer holds the whole CNAME path, at most eight hops, and the TXT leaf. */
  ghost predicate FaithfulLeaf(j: Judge, w: World) {
    && 1 <= |w.path| <= MAX_CNAME_HOPS + 1
    && (forall i: nat | i + 1 < |w.path| :: FaithfulHop(j, w, i))
    && Signed(j, w, LeafAnswer(w), LastOf(w), TXT, Apex(w.cuts, LastOf(w)))
    && forall s | s in LinkIn(LeafAnswer(w), LastOf(w), TXT).signatures :: s.labels == |LastOf(w)|
  }

  ghost predicate Faithful(j: Judge, w: World) {
    FaithfulZones(j, w) && FaithfulLeaf(j, w) && w.now <= FOREVER
  }

  // ----- one more link accepted -----

  lemma {:induction false} SignedParses(j: Judge, w: World, answers: seq<Record>, owner: Name, rtype: nat, zone: Name)
    requires Signed(j, w, answers, owner, rtype, zone) && rtype != RRSIG
    ensures FrameRrset(answers, owner, rtype).Ok?
    ensures |FrameRrset(answers, owner, rtype).value| <= MAX_UNIT_BYTES ==>
              ParseLink(FrameRrset(answers, owner, rtype).value) == Ok(LinkIn(answers, owner, rtype))
  {
    hide ParseLink, ValidRecord, ParseRrsig, WriteRecords, Usable;
    var data, sigs := DataOf(answers, owner, rtype), SignaturesOf(answers, owner, rtype);
    assert Frames(data, sigs, owner, rtype);
    FrameParses(data, sigs, owner, rtype);
    var b := WriteRecords(data + sigs);
    if |b| <= MAX_UNIT_BYTES {
      assert ParseLink(b).value.signatures == ReadSignatures(sigs);
    }
  }

  ghost predicate Spans(walk: Walk, now: nat) {
    walk.lo <= now <= walk.hi
  }

  /** A faithful RRset verifies under its zone's keys and keeps the instant inside the window. */
  lemma {:induction false} SignedVerifies(j: Judge, w: World, answers: seq<Record>, owner: Name, rtype: nat, walk: Walk)
    requires Signed(j, w, answers, owner, rtype, walk.zone) && walk.keys == KeysAt(w, walk.zone) && Spans(walk, w.now)
    ensures var link := LinkIn(answers, owner, rtype);
            var r := VerifySignedLink(j, walk, link);
            && r.Ok? && r.value.0 == walk.(lo := r.value.0.lo, hi := r.value.0.hi) && Spans(r.value.0, w.now)
            && r.value.1 in link.signatures
  {
    hide ValidAnswers, ParseRrsig, Usable, KeysAt, TrySignatures;
    var link := LinkIn(answers, owner, rtype);
    S.FirstUsable(j.crypto, walk.zone, walk.keys, link, link.signatures, NoUsableSignature);
    var rrsig := TrySignatures(j.crypto, walk.zone, walk.keys, link, link.signatures, NoUsableSignature).value;
    S.IntersectMeans(walk, rrsig);
    assert S.Covering(rrsig, w.now);
  }

  /** Appending a link the walk takes. */
  lemma {:induction false} ReplayMore(j: Judge, p: Progress, links: seq<Link>, link: Link)
    requires Replay(j, p, links).Some?
    ensures Replay(j, p, links + [link])
            == match TakeLink(j, Replay(j, p, links).value, link) case Ok(Going(next)) => Some(next) case _ => None
    decreases |links|
  {
    hide TakeLink;
    if links == [] {
      assert links + [link] == [link];
    } else {
      assert (links + [link])[1..] == links[1..] + [link];
      ReplayMore(j, TakeLink(j, p, links[0]).value.progress, links[1..], link);
    }
  }

  lemma {:induction false} ParseMore(frames: seq<Bytes>, b: Bytes)
    requires ParseLinks(frames).Ok? && ParseLink(b).Ok?
    ensures ParseLinks(frames + [b]).Ok? &&
            ParseLinks(frames + [b]).value == (ParseLinks(frames).value + [ParseLink(b).value])
  {
    hide ParseLink;
    if frames == [] {
      assert frames + [b] == [b] && [b][1..] == [];
      assert ParseLinks([b]) == Ok([ParseLink(b).value] + []);
    } else {
      assert (frames + [b])[1..] == frames[1..] + [b];
      ParseMore(frames[1..], b);
      var first, rest, last := ParseLink(frames[0]).value, ParseLinks(frames[1..]).value, ParseLink(b).value;
      assert [first] + rest + [last] == [first] + (rest + [last]);
    }
  }

  lemma {:induction false} StandingMore(j: Judge, owner: Name, frames: seq<Bytes>, b: Bytes)
    requires Standing(j, owner, frames).Some? && ParseLink(b).Ok?
    requires var r := TakeLink(j, Standing(j, owner, frames).value, ParseLink(b).value); r.Ok? && r.value.Going?
    ensures Standing(j, owner, frames + [b])
            == Some(TakeLink(j, Standing(j, owner, frames).value, ParseLink(b).value).value.progress)
  {
    hide ParseLinks, ParseLink, TakeLink, Replay, EnterAnchored;
    ParseMore(frames, b);
    var links, link := ParseLinks(frames).value, ParseLink(b).value;
    var p := Progress(EnterAnchored(j, links[0]).value, owner, None, 0);
    assert (links + [link])[1..] == links[1..] + [link];
    ReplayMore(j, p, links[1..], link);
  }

  lemma {:induction false} StandingFinishes(j: Judge, hostname: Bytes, frames: seq<Bytes>, b: Bytes)
    requires OnomancyOwner(hostname).Some? && Standing(j, OnomancyOwner(hostname).value, frames).Some? &&
            ParseLink(b).Ok?
    requires var r := TakeLink(j, Standing(j, OnomancyOwner(hostname).value, frames).value, ParseLink(b).value);
             r.Ok? && r.value.Finished?
    ensures var p := Standing(j, OnomancyOwner(hostname).value, frames).value;
            Validate(j, hostname, frames + [b]) == Ok(TakeLink(j, p, ParseLink(b).value).value.proof)
  {
    hide ParseLinks, ParseLink, TakeLink, Replay, EnterAnchored, OnomancyOwner;
    ParseMore(frames, b);
    var links, link := ParseLinks(frames).value, ParseLink(b).value;
    var p := Progress(EnterAnchored(j, links[0]).value, OnomancyOwner(hostname).value, None, 0);
    assert (links + [link])[1..] == links[1..] + [link];
    ReplayIsTheWalk(j, p, links[1..], [link]);
  }

  // ----- the builder, faithfully answered, keeps the validator going -----

  /** A walk at this cut with its keys, at this target, the instant inside its window. */
  ghost predicate At(w: World, p: Progress, zone: Name, target: Name, pending: Option<Name>, hops: int) {
    && zone in w.cuts
    && p.walk.zone == zone && p.walk.keys == KeysAt(w, zone)
    && p.walk.rootZone == ROOT && p.walk.rootKeys == KeysAt(w, ROOT)
    && Spans(p.walk, w.now)
    && p.target == target && p.hops == hops
    && p.pending == match pending case None => None case Some(child) => Some(Pending(child, DsAt(w, child)))
  }

  /** The validator, fed the links so far, stands there. */
  ghost predicate Stands(j: Judge, w: World, f: Framed, zone: Name, target: Name, pending: Option<Name>, hops: int) {
    && Standing(j, OwnerOf(w), f.links).Some?
    && At(w, Standing(j, OwnerOf(w), f.links).value, zone, target, pending, hops)
  }

  /** What a pushed frame is, when the push stays within the cap. */
  lemma {:induction false} PushedLink(j: Judge, w: World, f: Framed, answers: seq<Record>, owner: Name, rtype: nat,
                                      zone: Name) returns (b: Bytes)
    requires Signed(j, w, answers, owner, rtype, zone) && rtype != RRSIG
    requires PushRrset(f, answers, owner, rtype).Ok?
    ensures PushRrset(f, answers, owner, rtype).value.links == f.links + [b]
    ensures ParseLink(b) == Ok(LinkIn(answers, owner, rtype))
  {
    hide Signed, ParseLink, FrameRrset, LinkIn;
    SignedParses(j, w, answers, owner, rtype, zone);
    b := FrameRrset(answers, owner, rtype).value;
  }

  /** A push of a faithful RRset can fail only by outgrowing the cap. */
  lemma {:induction false} PushFailsByCap(j: Judge, w: World, f: Framed, answers: seq<Record>, owner: Name, rtype: nat,
                                          zone: Name)
    requires Signed(j, w, answers, owner, rtype, zone)
    ensures PushRrset(f, answers, owner, rtype).Err? ==> PushRrset(f, answers, owner, rtype).error.OversizeChain?
  {
    hide ValidAnswers, ParseRrsig, Usable, KeysAt, LinkIn, WriteRecords;
  }

  lemma {:induction false} SignedHasData(j: Judge, w: World, answers: seq<Record>, owner: Name, rtype: nat, zone: Name)
    requires Signed(j, w, answers, owner, rtype, zone)
    ensures DataOf(answers, owner, rtype) != [] && ValidAnswers(answers) && HasData(answers, owner, rtype)
  {
    hide ParseRrsig, Usable, KeysAt, LinkIn;
    var data := DataOf(answers, owner, rtype);
    assert data[0] in data;
  }

  lemma LinkInFields(answers: seq<Record>, owner: Name, rtype: nat)
    ensures var l := LinkIn(answers, owner, rtype);
            l.owner == owner && l.rtype == rtype && l.rrset == DataOf(answers, owner, rtype)
  {
  }

  lemma RootIsCut(j: Judge, w: World)
    requires Faithful(j, w)
    ensures ROOT in w.cuts && Anchored(j, ROOT, KeysAt(w, ROOT)) && w.now <= FOREVER && w.path != []
  {
  }

  /** What faithfulness says of one cut's keys. */
  lemma CutKeys(j: Judge, w: World, zone: Name)
    requires Faithful(j, w) && zone in w.cuts
    ensures Signed(j, w, KeyAnswer(w, zone), zone, DNSKEY, zone)
    ensures ParseKeys(LinkIn(KeyAnswer(w, zone), zone, DNSKEY)) == Ok(KeysAt(w, zone))
  {
    hide Signed, FaithfulLeaf, Anchored, ParseAll;
  }

  /** What faithfulness says of one cut's delegation. */
  lemma CutDelegation(j: Judge, w: World, child: Name)
    requires Faithful(j, w) && child in w.cuts && child != ROOT
    ensures Signed(j, w, DsAnswer(w, child), child, DS, Apex(w.cuts, child[1..]))
    ensures ParseDsSet(LinkIn(DsAnswer(w, child), child, DS)) == Ok(DsAt(w, child))
    ensures DsMatched(j, child, KeysAt(w, child), DsAt(w, child))
  {
    hide Signed, FaithfulLeaf, Anchored, ParseAll, DsMatched, KeysAt;
  }

  lemma {:induction false} TakesDs(j: Judge, w: World, p: Progress, zone: Name, target: Name, hops: int, child: Name)
    requires Faithful(j, w) && At(w, p, zone, target, None, hops)
    requires child in w.cuts && child != ROOT && zone == Apex(w.cuts, child[1..])
    ensures var r := TakeLink(j, p, LinkIn(DsAnswer(w, child), child, DS));
            r.Ok? && r.value.Going? && At(w, r.value.progress, zone, target, Some(child), hops)
  {
    hide Signed, Faithful, VerifySignedLink, LinkIn, KeysAt, DsAt, ParseDsSet, DsMatched, Spans, Apex;
    CutDelegation(j, w, child);
    LinkInFields(DsAnswer(w, child), child, DS);
    SignedVerifies(j, w, DsAnswer(w, child), child, DS, p.walk);
    ApexIsAncestor(w.cuts, child[1..]);
  }

  lemma {:induction false} TakesKeys(j: Judge, w: World, p: Progress, zone: Name, target: Name, hops: int, child: Name)
    requires Faithful(j, w) && At(w, p, zone, target, Some(child), hops) && child in w.cuts && child != ROOT
    ensures var r := TakeLink(j, p, LinkIn(KeyAnswer(w, child), child, DNSKEY));
            r.Ok? && r.value.Going? && At(w, r.value.progress, child, target, None, hops)
  {
    hide Signed, Faithful, VerifySignedLink, LinkIn, KeysAt, DsAt, ParseKeys, DsMatched, Spans, Apex;
    CutDelegation(j, w, child);
    CutKeys(j, w, child);
    LinkInFields(KeyAnswer(w, child), child, DNSKEY);
    var entering := p.walk.(zone := child, keys := KeysAt(w, child));
    SpansElsewhere(p.walk, entering, w.now);
    SignedVerifies(j, w, KeyAnswer(w, child), child, DNSKEY, entering);
  }

  lemma SpansElsewhere(a: Walk, b: Walk, now: nat)
    requires Spans(a, now) && a.lo == b.lo && a.hi == b.hi
    ensures Spans(b, now)
  {
  }

  /** Where a hop resumes. */
  ghost function ZoneAfter(zone: Name, target: Name): Name {
    if IsAncestorOrSelf(zone, target) then zone else ROOT
  }

  lemma {:induction false} TakesCname(j: Judge, w: World, p: Progress, i: nat)
    requires Faithful(j, w) && i + 1 < |w.path| && At(w, p, Apex(w.cuts, w.path[i]), w.path[i], None, i)
    ensures var r := TakeLink(j, p, LinkIn(LeafAnswer(w), w.path[i], CNAME));
            r.Ok? && r.value.Going?
            && At(w, r.value.progress, ZoneAfter(Apex(w.cuts, w.path[i]), w.path[i + 1]), w.path[i + 1], None, i + 1)
  {
    hide Signed, Faithful, VerifySignedLink, LinkIn, KeysAt, Spans, Apex, ParseCname, IsAncestorOrSelf, ValidAnswers,
         HasData;
    var answers, name, target := LeafAnswer(w), w.path[i], w.path[i + 1];
    PathHop(j, w, i);
    RootIsCut(j, w);
    SignedHasData(j, w, answers, name, CNAME, Apex(w.cuts, name));
    LinkInFields(answers, name, CNAME);
    SignedVerifies(j, w, answers, name, CNAME, p.walk);
    var narrowed := VerifySignedLink(j, p.walk, LinkIn(answers, name, CNAME)).value.0;
    SpansElsewhere(narrowed, Reroot(narrowed, target), w.now);
  }

  lemma PathHop(j: Judge, w: World, i: nat)
    requires Faithful(j, w) && i + 1 < |w.path|
    ensures FaithfulHop(j, w, i) && i < MAX_CNAME_HOPS
    ensures DataOf(LeafAnswer(w), w.path[i], CNAME) != []
    ensures Signed(j, w, LeafAnswer(w), w.path[i], CNAME, Apex(w.cuts, w.path[i]))
  {
    hide FaithfulZones, Apex, KeysAt, LinkIn, Usable, ValidAnswers, ParseRrsig;
    assert FaithfulHop(j, w, i);
  }

  lemma PathEnd(j: Judge, w: World)
    requires Faithful(j, w)
    ensures 1 <= |w.path| <= MAX_CNAME_HOPS + 1
    ensures Signed(j, w, LeafAnswer(w), LastOf(w), TXT, Apex(w.cuts, LastOf(w)))
    ensures forall s | s in LinkIn(LeafAnswer(w), LastOf(w), TXT).signatures :: s.labels == |LastOf(w)|
  {
    hide FaithfulZones, Signed, Apex, LinkIn;
  }

  lemma TakesTxt(j: Judge, w: World, p: Progress)
    requires Faithful(j, w) && At(w, p, Apex(w.cuts, LastOf(w)), LastOf(w), None, |w.path| - 1)
    ensures var r := TakeLink(j, p, LinkIn(LeafAnswer(w), LastOf(w), TXT));
            r.Ok? && r.value.Finished? && Covers(r.value.proof.window, w.now)
            && Yields(j.canonical, DataOf(LeafAnswer(w), LastOf(w), TXT), r.value.proof.records)
  {
    hide Signed, Faithful, VerifySignedLink, LinkIn, KeysAt, Apex, ParseBindings, Yields;
    PathEnd(j, w);
    BindingsYield(j.canonical, DataOf(LeafAnswer(w), LastOf(w), TXT));
    LinkInFields(LeafAnswer(w), LastOf(w), TXT);
    SignedVerifies(j, w, LeafAnswer(w), LastOf(w), TXT, p.walk);
  }

  /** A pushed frame whose link the walk takes leaves the validator where the link takes it. */
  lemma {:induction false} PushStands(j: Judge, w: World, f: Framed, answers: seq<Record>, owner: Name, rtype: nat,
                                      zone: Name)
    requires Signed(j, w, answers, owner, rtype, zone) && rtype != RRSIG && PushRrset(f, answers, owner, rtype).Ok?
    requires Standing(j, OwnerOf(w), f.links).Some?
    requires var r := TakeLink(j, Standing(j, OwnerOf(w), f.links).value, LinkIn(answers, owner, rtype));
            r.Ok? && r.value.Going?
    ensures Standing(j, OwnerOf(w), PushRrset(f, answers, owner, rtype).value.links)
            == Some(TakeLink(j, Standing(j, OwnerOf(w), f.links).value, LinkIn(answers, owner, rtype)).value.progress)
  {
    hide Signed, PushRrset, Standing, TakeLink, LinkIn, ParseLink;
    var b := PushedLink(j, w, f, answers, owner, rtype, zone);
    StandingMore(j, OwnerOf(w), f.links, b);
  }

  lemma {:induction false} PushDsStands(j: Judge, w: World, f: Framed, zone: Name, target: Name, hops: int, child: Name)
    requires Faithful(j, w) && Stands(j, w, f, zone, target, None, hops)
    requires child in w.cuts && child != ROOT && zone == Apex(w.cuts, child[1..])
    requires PushRrset(f, DsAnswer(w, child), child, DS).Ok?
    ensures Stands(j, w, PushRrset(f, DsAnswer(w, child), child, DS).value, zone, target, Some(child), hops)
  {
    hide Signed, Faithful, PushRrset, Standing, TakeLink, LinkIn, At, Apex;
    CutDelegation(j, w, child);
    TakesDs(j, w, Standing(j, OwnerOf(w), f.links).value, zone, target, hops, child);
    PushStands(j, w, f, DsAnswer(w, child), child, DS, zone);
  }

  lemma {:induction false} PushKeysStands(j: Judge, w: World, f: Framed, zone: Name, target: Name, hops: int,
                                          child: Name)
    requires Faithful(j, w) && Stands(j, w, f, zone, target, Some(child), hops) && child in w.cuts && child != ROOT
    requires PushRrset(f, KeyAnswer(w, child), child, DNSKEY).Ok?
    ensures Stands(j, w, PushRrset(f, KeyAnswer(w, child), child, DNSKEY).value, child, target, None, hops)
  {
    hide Signed, Faithful, PushRrset, Standing, TakeLink, LinkIn, At, Apex;
    CutKeys(j, w, child);
    TakesKeys(j, w, Standing(j, OwnerOf(w), f.links).value, zone, target, hops, child);
    PushStands(j, w, f, KeyAnswer(w, child), child, DNSKEY, child);
  }

  lemma {:induction false} PushCnameStands(j: Judge, w: World, f: Framed, i: nat)
    requires Faithful(j, w) && i + 1 < |w.path|
    requires Stands(j, w, f, Apex(w.cuts, w.path[i]), w.path[i], None, i)
    requires PushRrset(f, LeafAnswer(w), w.path[i], CNAME).Ok?
    ensures Stands(j, w, PushRrset(f, LeafAnswer(w), w.path[i], CNAME).value,
                   ZoneAfter(Apex(w.cuts, w.path[i]), w.path[i + 1]), w.path[i + 1], None, i + 1)
  {
    hide Signed, Faithful, PushRrset, Standing, TakeLink, LinkIn, At, Apex, ZoneAfter, FaithfulHop;
    PathHop(j, w, i);
    TakesCname(j, w, Standing(j, OwnerOf(w), f.links).value, i);
    PushStands(j, w, f, LeafAnswer(w), w.path[i], CNAME, Apex(w.cuts, w.path[i]));
  }

  /** The verdict faithful answers deserve: the leaf's bindings, under a window that covers the instant. */
  ghost predicate Proven(j: Judge, w: World, hostname: Bytes, chain: seq<Bytes>) {
    && Validate(j, hostname, chain).Ok?
    && var proof := Validate(j, hostname, chain).value;
       && Yields(j.canonical, DataOf(LeafAnswer(w), LastOf(w), TXT), proof.records)
       && Covers(proof.window, w.now)
  }

  lemma {:induction false} PushTxtProves(j: Judge, w: World, hostname: Bytes, f: Framed)
    requires Faithful(j, w) && OnomancyOwner(hostname) == Some(OwnerOf(w))
    requires Stands(j, w, f, Apex(w.cuts, LastOf(w)), LastOf(w), None, |w.path| - 1)
    requires PushRrset(f, LeafAnswer(w), LastOf(w), TXT).Ok?
    ensures Proven(j, w, hostname, PushRrset(f, LeafAnswer(w), LastOf(w), TXT).value.links)
  {
    hide Signed, Faithful, ParseLink, PushRrset, Standing, TakeLink, LinkIn, Validate, OnomancyOwner, Yields, At,
         Apex;
    PathEnd(j, w);
    var b := PushedLink(j, w, f, LeafAnswer(w), LastOf(w), TXT, Apex(w.cuts, LastOf(w)));
    TakesTxt(j, w, Standing(j, OwnerOf(w), f.links).value);
    StandingFinishes(j, hostname, f.links, b);
  }

  // ----- the machine -----

  ghost predicate DescentStands(j: Judge, w: World, f: Framed, d: Descent, q: Question)
  {
    && 1 <= d.depth <= |d.name|
    && d.deepest == Apex(w.cuts, TrimTo(d.name, d.depth - 1))
    && q == Question(TrimTo(d.name, d.depth), if d.awaiting.AwaitDs? then DS else DNSKEY)
    && (d.awaiting.AwaitKeys? ==> TrimTo(d.name, d.depth) in w.cuts)
    && ResumesPath(w, d.name, d.resume)
    && Stands(j, w, f, d.deepest, d.name, PendingCut(d), HopsTaken(d))
  }

  /** The descent serves the path: its first name, or a later one with that many hops spent. */
  ghost predicate ResumesPath(w: World, name: Name, resume: Resume)
  {
    match resume
    case ToLeaf(o) => o == name == OwnerOf(w)
    case ToWalk(lw) =>
      && lw.current == name && lw.answers == LeafAnswer(w)
      && 0 < lw.remaining <= MAX_CNAME_HOPS
      && var i := MAX_CNAME_HOPS + 1 - lw.remaining; i < |w.path| && w.path[i] == name
  }

  /** At the root, the builder's own zone may be another, which does not contain the path's next name. */
  ghost predicate LeftBehind(w: World, i: nat, zone: Name) {
    i + 1 == |w.path| || (i + 1 < |w.path| && !IsAncestorOrSelf(zone, w.path[i + 1]))
  }

  ghost predicate HeadStands(j: Judge, w: World, f: Framed, lw: LeafWalk, zone: Name)
  {
    && lw.answers == LeafAnswer(w) && 0 < lw.remaining <= MAX_CNAME_HOPS + 1
    && var i := MAX_CNAME_HOPS + 1 - lw.remaining;
       && i < |w.path| && w.path[i] == lw.current
       && (zone == Apex(w.cuts, lw.current) || (lw.current == ROOT && LeftBehind(w, i, zone)))
       && Stands(j, w, f, Apex(w.cuts, lw.current), lw.current, None, i)
  }

  ghost predicate MachineStands(j: Judge, w: World, m: Machine, q: Question)
  {
    match m.phase
    case RootKeysPhase(o) => o == OwnerOf(w) && o != ROOT && m.framed.links == [] && q == Question(ROOT, DNSKEY)
    case AtLeaf(o) => o == OwnerOf(w) && q == Question(o, TXT) && m.currentZone == Apex(w.cuts, o)
                      && Stands(j, w, m.framed, m.currentZone, o, None, 0)
    case Descending(d) => DescentStands(j, w, m.framed, d, q)
  }

  ghost predicate TurnStands(j: Judge, w: World, t: Turn)
  {
    match t
    case Asked(m, q) => MachineStands(j, w, m, q)
    case Advancing(f, lw, zone) => HeadStands(j, w, f, lw, zone)
  }

  lemma {:induction false} NextCutStands(j: Judge, w: World, f: Framed, d: Descent)
    requires 1 <= d.depth <= |d.name|
    requires d.deepest == Apex(w.cuts, TrimTo(d.name, d.depth)) && ResumesPath(w, d.name, d.resume)
    requires Stands(j, w, f, d.deepest, d.name, None, HopsTaken(d))
    ensures TurnStands(j, w, NextCut(d, f))
  {
    hide Stands, Apex;
    assert TrimTo(d.name, |d.name|) == d.name;
  }

  lemma StandingFirst(j: Judge, owner: Name, b: Bytes)
    requires ParseLink(b).Ok? && EnterAnchored(j, ParseLink(b).value).Ok?
    ensures Standing(j, owner, [b]) == Some(Progress(EnterAnchored(j, ParseLink(b).value).value, owner, None, 0))
  {
    hide ParseLink, EnterAnchored;
    var link := ParseLink(b).value;
    assert [b][1..] == [] && ParseLinks([]) == Ok([]);
    assert [link] + [] == [link] && [link][1..] == [];
  }

  /** The root's keys are entered, and the walk stands at the root. */
  lemma EntersRoot(j: Judge, w: World)
    requires Faithful(j, w)
    ensures var r := EnterAnchored(j, LinkIn(KeyAnswer(w, ROOT), ROOT, DNSKEY));
            r.Ok? && At(w, Progress(r.value, OwnerOf(w), None, 0), ROOT, OwnerOf(w), None, 0)
  {
    hide Signed, Faithful, VerifySignedLink, LinkIn, KeysAt, Anchored, ParseKeys;
    RootIsCut(j, w);
    CutKeys(j, w, ROOT);
    LinkInFields(KeyAnswer(w, ROOT), ROOT, DNSKEY);
    var keys := KeysAt(w, ROOT);
    SignedVerifies(j, w, KeyAnswer(w, ROOT), ROOT, DNSKEY, Walk(ROOT, keys, ROOT, keys, 0, FOREVER));
  }

  lemma RootKeysStand(j: Judge, w: World, f: Framed)
    requires Faithful(j, w) && f.links == [] && PushRrset(f, KeyAnswer(w, ROOT), ROOT, DNSKEY).Ok?
    ensures Stands(j, w, PushRrset(f, KeyAnswer(w, ROOT), ROOT, DNSKEY).value, ROOT, OwnerOf(w), None, 0)
  {
    hide Signed, Faithful, ParseLink, PushRrset, LinkIn, EnterAnchored, Standing, At;
    RootIsCut(j, w);
    CutKeys(j, w, ROOT);
    var b := PushedLink(j, w, f, KeyAnswer(w, ROOT), ROOT, DNSKEY, ROOT);
    EntersRoot(j, w);
    StandingFirst(j, OwnerOf(w), b);
    assert f.links + [b] == [b];
  }

  lemma NotACut(j: Judge, w: World, name: Name)
    requires Faithful(j, w) && name !in w.cuts
    ensures !HasData(DsAnswer(w, name), name, DS)
  {
    hide FaithfulLeaf, Signed, ParseAll, HasData;
  }

  lemma {:induction false} CutProbed(j: Judge, w: World, f: Framed, d: Descent, q: Question)
    requires Faithful(j, w) && DescentStands(j, w, f, d, q) && d.awaiting.AwaitDs? && TrimTo(d.name, d.depth) in w.cuts
    ensures match DescentAnswer(d, f, w.resolve(q))
            case Ok(t) => TurnStands(j, w, t)
            case Err(e) => e.OversizeChain?
  {
    hide Signed, Faithful, Stands, PushRrset, HasData, ResumesPath, Apex, TrimTo, NextCut;
    hide KeysAt, DsAt, DsMatched, LinkIn, ParseDsSet, DataOf, ValidAnswers;
    var suffix := TrimTo(d.name, d.depth);
    ApexDeeper(w.cuts, d.name, d.depth);
    CutDelegation(j, w, suffix);
    SignedHasData(j, w, DsAnswer(w, suffix), suffix, DS, d.deepest);
    PushFailsByCap(j, w, f, DsAnswer(w, suffix), suffix, DS, d.deepest);
    if PushRrset(f, DsAnswer(w, suffix), suffix, DS).Ok? {
      PushDsStands(j, w, f, d.deepest, d.name, HopsTaken(d), suffix);
    }
  }

  lemma {:induction false} NonCutProbed(j: Judge, w: World, f: Framed, d: Descent, q: Question)
    requires Faithful(j, w) && DescentStands(j, w, f, d, q) && d.awaiting.AwaitDs? && TrimTo(d.name, d.depth) !in w.cuts
    ensures DescentAnswer(d, f, w.resolve(q)) == Ok(NextCut(d, f)) && TurnStands(j, w, NextCut(d, f))
  {
    hide Signed, Faithful, Stands, PushRrset, HasData, ResumesPath, Apex, TrimTo, NextCut, TurnStands;
    ApexDeeper(w.cuts, d.name, d.depth);
    NotACut(j, w, TrimTo(d.name, d.depth));
    NextCutStands(j, w, f, d);
  }

  lemma {:induction false} ChildKeysStand(j: Judge, w: World, f: Framed, d: Descent, q: Question)
    requires Faithful(j, w) && DescentStands(j, w, f, d, q) && d.awaiting.AwaitKeys?
    ensures match DescentAnswer(d, f, w.resolve(q))
            case Ok(t) => TurnStands(j, w, t)
            case Err(e) => e.OversizeChain?
  {
    hide Signed, Faithful, Stands, PushRrset, HasData, ResumesPath, Apex, TrimTo, NextCut;
    var suffix := TrimTo(d.name, d.depth);
    ApexDeeper(w.cuts, d.name, d.depth);
    CutKeys(j, w, suffix);
    PushFailsByCap(j, w, f, KeyAnswer(w, suffix), suffix, DNSKEY, suffix);
    if PushRrset(f, KeyAnswer(w, suffix), suffix, DNSKEY).Ok? {
      PushKeysStands(j, w, f, d.deepest, d.name, HopsTaken(d), suffix);
      NextCutStands(j, w, PushRrset(f, KeyAnswer(w, suffix), suffix, DNSKEY).value, d.(deepest := suffix));
    }
  }

  ghost predicate StepStands(j: Judge, w: World, hostname: Bytes, r: Result<Step, BuildError>)
  {
    match r
    case Ok(Ask(m, q)) => MachineStands(j, w, m, q)
    case Ok(Done(chain)) => Proven(j, w, hostname, chain)
    case Err(e) => e.OversizeChain?
  }

  /** How many hops a leaf walk has taken: its place on the path. */
  function Place(lw: LeafWalk): int {
    MAX_CNAME_HOPS + 1 - lw.remaining
  }

  /** A hop to the zone itself, or to the root, needs no descent. */
  lemma {:induction false} HopStays(j: Judge, w: World, pushed: Framed, lw: LeafWalk, zone: Name, target: Name)
    requires Place(lw) >= 0 && Place(lw) + 1 < |w.path| <= MAX_CNAME_HOPS + 1 && target == w.path[Place(lw) + 1]
    requires lw.answers == LeafAnswer(w) && zone in w.cuts && zone == Apex(w.cuts, w.path[Place(lw)])
    requires target == ROOT ==> LeavesRoot(w, Place(lw))
    requires Stands(j, w, pushed, ZoneAfter(zone, target), target, None, Place(lw) + 1)
    requires HopFrom(zone, target).0 > |target|
    ensures HeadStands(j, w, pushed, LeafWalk(lw.answers, target, lw.remaining - 1), zone)
  {
    hide Stands, LeafAnswer, Apex;
    if target == ROOT {
      RootApex(w.cuts);
    } else {
      assert zone == target;
      CutApex(w.cuts, zone);
    }
  }

  lemma RootApex(cuts: set<Name>)
    ensures Apex(cuts, ROOT) == ROOT
  {
  }

  /** Any other hop starts a descent at the deepest cut already known above its target. */
  lemma {:induction false} HopDescends(j: Judge, w: World, pushed: Framed, lw: LeafWalk, zone: Name, target: Name)
    requires Place(lw) >= 0 && Place(lw) + 1 < |w.path| <= MAX_CNAME_HOPS + 1 && target == w.path[Place(lw) + 1]
    requires lw.answers == LeafAnswer(w) && zone in w.cuts && ROOT in w.cuts
    requires Stands(j, w, pushed, ZoneAfter(zone, target), target, None, Place(lw) + 1)
    requires HopFrom(zone, target).0 <= |target|
    ensures var s := HopDescent(pushed, target, zone, LeafWalk(lw.answers, target, lw.remaining - 1));
            MachineStands(j, w, s.machine, s.question)
  {
    hide Stands, LeafAnswer, Apex, OwnerOf;
    CutApex(w.cuts, ZoneAfter(zone, target));
    assert TrimTo(target, |ZoneAfter(zone, target)|) == ZoneAfter(zone, target);
  }

  /** Outside the zone left behind, the builder starts over at the root, where the validator is. */
  lemma {:induction false} SameDescent(f: Framed, target: Name, zone: Name, next: LeafWalk)
    requires !IsAncestorOrSelf(zone, target)
    ensures HopFrom(zone, target) == HopFrom(ROOT, target)
    ensures HopDescent(f, target, zone, next) == HopDescent(f, target, ROOT, next)
    ensures ZoneAfter(ROOT, target) == ROOT
  {
  }

  lemma {:induction false} HopStands(j: Judge, w: World, f: Framed, lw: LeafWalk, zone: Name, target: Name)
    requires Faithful(j, w) && HeadStands(j, w, f, lw, zone)
    requires Place(lw) + 1 < |w.path| && target == w.path[Place(lw) + 1]
    requires PushRrset(f, lw.answers, lw.current, CNAME).Ok?
    ensures var pushed := PushRrset(f, lw.answers, lw.current, CNAME).value;
            var next := LeafWalk(lw.answers, target, lw.remaining - 1);
            if HopFrom(zone, target).0 <= |target| then
              var s := HopDescent(pushed, target, zone, next); MachineStands(j, w, s.machine, s.question)
            else HeadStands(j, w, pushed, next, zone)
  {
    hide Signed, Faithful, Stands, PushRrset, Apex, LeafAnswer, OwnerOf, DataOf, FaithfulHop, HopFrom, MachineStands,
         ZoneAfter, HopDescent, LeavesRoot;
    var i: nat := Place(lw);
    RootHop(j, w, i);
    PathEnd(j, w);
    PushCnameStands(j, w, f, i);
    RootIsCut(j, w);
    ApexIsCut(w.cuts, lw.current);
    var pushed := PushRrset(f, lw.answers, lw.current, CNAME).value;
    if zone != Apex(w.cuts, lw.current) {
      RootApex(w.cuts);
      SameDescent(pushed, target, zone, LeafWalk(lw.answers, target, lw.remaining - 1));
      RootHopFrom(target);
      HopDescends(j, w, pushed, lw, ROOT, target);
    } else if HopFrom(zone, target).0 <= |target| {
      HopDescends(j, w, pushed, lw, zone, target);
    } else {
      HopStays(j, w, pushed, lw, zone, target);
    }
  }

  lemma RootHopFrom(target: Name)
    requires target != ROOT
    ensures HopFrom(ROOT, target).0 <= |target|
  {
  }

  /** A CNAME to the root comes from elsewhere, and is left as `LeavesRoot` says. */
  lemma RootHop(j: Judge, w: World, i: nat)
    requires Faithful(j, w) && i + 1 < |w.path|
    ensures w.path[i + 1] == ROOT ==> w.path[i] != ROOT && LeavesRoot(w, i)
  {
    hide Signed, FaithfulZones, HasData, ParseCname, LeavesRoot;
    assert FaithfulHop(j, w, i);
  }

  lemma CutApex(cuts: set<Name>, zone: Name)
    requires zone in cuts
    ensures Apex(cuts, zone) == zone
  {
  }

  lemma {:induction false} LastHeadStands(j: Judge, w: World, hostname: Bytes, f: Framed, lw: LeafWalk, zone: Name)
    requires Faithful(j, w) && OnomancyOwner(hostname) == Some(OwnerOf(w)) && HeadStands(j, w, f, lw, zone)
    requires Place(lw) + 1 == |w.path|
    ensures StepStands(j, w, hostname, Advance(f, lw, zone))
  {
    hide Signed, Faithful, Stands, PushRrset, OnomancyOwner, HasData, FindCname, HopFrom, Proven, ParseCname, Apex,
         LeafAnswer;
    assert lw.current == LastOf(w);
    PathEnd(j, w);
    SignedHasData(j, w, lw.answers, lw.current, TXT, Apex(w.cuts, lw.current));
    PushFailsByCap(j, w, f, lw.answers, lw.current, TXT, Apex(w.cuts, lw.current));
    if PushRrset(f, lw.answers, lw.current, TXT).Ok? {
      PushTxtProves(j, w, hostname, f);
    }
  }

  /** At a name before the last, the answer has no TXT and its CNAME is the path's next name. */
  lemma HopHead(j: Judge, w: World, lw: LeafWalk)
    requires Faithful(j, w) && 0 <= Place(lw) && Place(lw) + 1 < |w.path|
    requires lw.answers == LeafAnswer(w) && lw.current == w.path[Place(lw)]
    ensures !HasData(lw.answers, lw.current, TXT) && FindCname(lw.answers, lw.current) == Some(w.path[Place(lw) + 1])
    ensures Signed(j, w, lw.answers, lw.current, CNAME, Apex(w.cuts, lw.current))
  {
    hide Faithful, Signed, HasData, FindCname, ParseCname, Apex;
    PathHop(j, w, Place(lw));
    FirstTarget(lw.answers, lw.current);
  }

  lemma {:induction false} AdvanceStands(j: Judge, w: World, hostname: Bytes, f: Framed, lw: LeafWalk, zone: Name)
    requires Faithful(j, w) && OnomancyOwner(hostname) == Some(OwnerOf(w)) && HeadStands(j, w, f, lw, zone)
    ensures StepStands(j, w, hostname, Advance(f, lw, zone))
    decreases lw.remaining
  {
    if Place(lw) + 1 == |w.path| {
      LastHeadStands(j, w, hostname, f, lw, zone);
    } else {
      hide Signed, Faithful, Stands, PushRrset, OnomancyOwner, HasData, FindCname, HopFrom, Proven, MachineStands, Apex,
           LeafAnswer;
      var target := w.path[Place(lw) + 1];
      HopHead(j, w, lw);
      PushFailsByCap(j, w, f, lw.answers, lw.current, CNAME, Apex(w.cuts, lw.current));
      if PushRrset(f, lw.answers, lw.current, CNAME).Ok? {
        HopStands(j, w, f, lw, zone, target);
        var pushed := PushRrset(f, lw.answers, lw.current, CNAME).value;
        AdvanceHop(f, lw, zone, target);
        if HopFrom(zone, target).0 > |target| {
          AdvanceStands(j, w, hostname, pushed, LeafWalk(lw.answers, target, lw.remaining - 1), zone);
        }
      } else {
        AdvanceRefused(f, lw, zone);
      }
    }
  }

  /** One round of the leaf loop that frames a CNAME. */
  lemma {:induction false} AdvanceHop(f: Framed, lw: LeafWalk, zone: Name, target: Name)
    requires lw.remaining > 0 && !HasData(lw.answers, lw.current, TXT) &&
            FindCname(lw.answers, lw.current) == Some(target)
    requires PushRrset(f, lw.answers, lw.current, CNAME).Ok?
    ensures var pushed := PushRrset(f, lw.answers, lw.current, CNAME).value;
            var next := LeafWalk(lw.answers, target, lw.remaining - 1);
            Advance(f, lw, zone) == if HopFrom(zone, target).0 <= |target|
                                    then Ok(HopDescent(pushed, target, zone, next))
                                    else Advance(pushed, next, zone)
  {
    hide HasData, FindCname, PushRrset, HopFrom, TrimTo;
  }

  lemma AdvanceRefused(f: Framed, lw: LeafWalk, zone: Name)
    requires lw.remaining > 0 && !HasData(lw.answers, lw.current, TXT) && FindCname(lw.answers, lw.current).Some?
    requires PushRrset(f, lw.answers, lw.current, CNAME).Err?
    ensures Advance(f, lw, zone) == Err(PushRrset(f, lw.answers, lw.current, CNAME).error)
  {
    hide HasData, FindCname, PushRrset;
  }

  lemma {:induction false} DescentTurnStands(j: Judge, w: World, f: Framed, d: Descent, q: Question)
    requires Faithful(j, w) && DescentStands(j, w, f, d, q)
    ensures match DescentAnswer(d, f, w.resolve(q))
            case Ok(t) => TurnStands(j, w, t)
            case Err(e) => e.OversizeChain?
  {
    hide Faithful, DescentAnswer, DescentStands, TurnStands, TrimTo;
    if d.awaiting.AwaitKeys? {
      ChildKeysStand(j, w, f, d, q);
    } else if TrimTo(d.name, d.depth) in w.cuts {
      CutProbed(j, w, f, d, q);
    } else {
      NonCutProbed(j, w, f, d, q);
    }
  }

  lemma {:induction false} DescendingAnswerStands(j: Judge, w: World, hostname: Bytes, m: Machine, q: Question)
    requires Faithful(j, w) && OnomancyOwner(hostname) == Some(OwnerOf(w))
    requires m.phase.Descending? && DescentStands(j, w, m.framed, m.phase.descent, q)
    ensures StepStands(j, w, hostname, Answer(m, w.resolve(q)))
  {
    hide Faithful, OnomancyOwner, Proven, Advance, DescentAnswer, DescentStands, MachineStands, HeadStands;
    var d := m.phase.descent;
    DescentTurnStands(j, w, m.framed, d, q);
    var r := DescentAnswer(d, m.framed, w.resolve(q));
    if r.Ok? && r.value.Advancing? {
      AdvanceStands(j, w, hostname, r.value.framed, r.value.walk, r.value.zone);
    }
  }

  lemma {:induction false} LeafAnswerStands(j: Judge, w: World, hostname: Bytes, m: Machine, q: Question)
    requires Faithful(j, w) && OnomancyOwner(hostname) == Some(OwnerOf(w)) && MachineStands(j, w, m, q) &&
            m.phase.AtLeaf?
    ensures StepStands(j, w, hostname, Answer(m, w.resolve(q)))
  {
    hide Faithful, OnomancyOwner, Proven, Advance, Stands, Apex;
    PathEnd(j, w);
    AdvanceStands(j, w, hostname, m.framed, LeafWalk(w.resolve(q), m.phase.owner, MAX_CNAME_HOPS + 1), m.currentZone);
  }

  lemma {:induction false} AnswerStands(j: Judge, w: World, hostname: Bytes, m: Machine, q: Question)
    requires Faithful(j, w) && OnomancyOwner(hostname) == Some(OwnerOf(w)) && MachineStands(j, w, m, q)
    ensures StepStands(j, w, hostname, Answer(m, w.resolve(q)))
  {
    hide Faithful, OnomancyOwner, MachineStands, Answer;
    match m.phase {
      case RootKeysPhase(_) => RootAnswerStands(j, w, m, q);
      case Descending(_) =>
        MachineDescends(j, w, m, q);
        DescendingAnswerStands(j, w, hostname, m, q);
      case AtLeaf(_) => LeafAnswerStands(j, w, hostname, m, q);
    }
  }

  lemma {:induction false} MachineDescends(j: Judge, w: World, m: Machine, q: Question)
    requires MachineStands(j, w, m, q) && m.phase.Descending?
    ensures DescentStands(j, w, m.framed, m.phase.descent, q)
  {
  }

  lemma {:induction false} RootAnswerStands(j: Judge, w: World, m: Machine, q: Question)
    requires Faithful(j, w) && MachineStands(j, w, m, q) && m.phase.RootKeysPhase?
    ensures match Answer(m, w.resolve(q))
            case Ok(Ask(next, asked)) => MachineStands(j, w, next, asked)
            case Ok(Done(_)) => false
            case Err(e) => e.OversizeChain?
  {
    hide Faithful, Signed, Stands, PushRrset, TrimTo, DescentStands, Apex, OwnerOf;
    RootIsCut(j, w);
    CutKeys(j, w, ROOT);
    PushFailsByCap(j, w, m.framed, KeyAnswer(w, ROOT), ROOT, DNSKEY, ROOT);
    if PushRrset(m.framed, KeyAnswer(w, ROOT), ROOT, DNSKEY).Ok? {
      RootKeysStand(j, w, m.framed);
      FirstProbe(j, w, PushRrset(m.framed, KeyAnswer(w, ROOT), ROOT, DNSKEY).value);
    }
  }

  lemma FirstProbe(j: Judge, w: World, f: Framed)
    requires OwnerOf(w) != ROOT && Stands(j, w, f, ROOT, OwnerOf(w), None, 0)
    ensures var d := Descent(OwnerOf(w), 1, AwaitDs, ROOT, ToLeaf(OwnerOf(w)));
            DescentStands(j, w, f, d, Question(TrimTo(OwnerOf(w), 1), DS))
  {
    hide Stands;
    assert TrimTo(OwnerOf(w), 0) == ROOT;
  }

  lemma {:induction false} DriveStands(j: Judge, w: World, hostname: Bytes,
                                       resolver: (Machine, Question) -> seq<Record>, m: Machine, q: Question)
    requires Faithful(j, w) && OnomancyOwner(hostname) == Some(OwnerOf(w)) && MachineStands(j, w, m, q)
    requires forall n, asked :: resolver(n, asked) == w.resolve(asked)
    ensures match Drive(resolver, m, q)
            case Completed(chain) => Proven(j, w, hostname, chain)
            case Failed(e) => e.OversizeChain?
            case Waiting(_, _) => false
    decreases PhaseRank(m), HopsLeft(m), LabelsLeft(m)
  {
    hide Faithful, OnomancyOwner, MachineStands, Proven, Answer;
    AnswerStands(j, w, hostname, m, q);
    var next := After(Answer(m, resolver(m, q)));
    if next.Waiting? {
      AnswerShrinks(m, resolver(m, q));
      DriveStands(j, w, hostname, resolver, next.machine, next.question);
    }
  }

  /**
   Completeness. Faithfully answered, the builder either outgrows the unit cap or
   finishes a chain that the validator accepts, yielding the bindings of the TXT RRset
   at the end of the CNAME path and a window that covers the shared instant.
   */
  lemma EndToEnd(j: Judge, w: World, hostname: Bytes)
    requires Faithful(j, w) && OnomancyOwner(hostname) == Some(OwnerOf(w))
    ensures var resolver := (m: Machine, q: Question) => w.resolve(q);
            StartFor(hostname).Ok? &&
            var start := StartFor(hostname).value;
            start.Ask? &&
            match Drive(resolver, start.machine, start.question)
            case Completed(chain) => Proven(j, w, hostname, chain)
            case Failed(e) => e.OversizeChain?
            case Waiting(_, _) => false
  {
    hide Faithful, Proven;
    var resolver := (m: Machine, q: Question) => w.resolve(q);
    var start := Start(OwnerOf(w));
    DriveStands(j, w, hostname, resolver, start.machine, start.question);
  }
}
