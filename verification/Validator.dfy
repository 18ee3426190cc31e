/**
 The chain-validation walk (onomancy_dnssec/src/validator.rs). The walk's state is the
 class `WalkState`, whose methods are proved against the functions of the same names.
 */
module Validator {
  import opened Wrappers
  import opened Wire
  import opened Names
  import opened Records
  import opened Links
  import opened Dnssec
  import opened Freshness
  import opened TxtRecords
  import opened Text

  const MAX_CNAME_HOPS: nat := 8
  const FOREVER: nat := U64_LIMIT - 1

  datatype WalkError =
    | DsMismatch
    | EmptyChain
    | EmptyWindow
    | MalformedRdata(rtype: nat)
    | MissingLeaf
    | NoUsableSignature
    | NotDescending
    | Parse(link: LinkError)
    | SignerMismatch
    | TooManyCnames
    | Unanchored
    | UnexpectedLink(rtype: nat, awaitingChildKeys: bool)
    | UnrepresentableName
    | BadlySigned(verify: VerifyError)
    | WildcardExpansion
    | WrongOwner

  datatype ChainProof = ChainProof(records: seq<TxtRecord>, window: Window)

  /** What the walk judges with: the cryptography, the key test and the trust anchors. */
  datatype Judge = Judge(crypto: Crypto, canonical: KeyTest, anchors: seq<TrustAnchor>)

  /** What the walk has come to trust: a zone and its keys, the root's, and the window narrowed so far. */
  datatype Walk = Walk(zone: Name, keys: seq<Dnskey>, rootZone: Name, rootKeys: seq<Dnskey>, lo: nat, hi: nat)

  /** A delegation awaiting its child keys. */
  datatype Pending = Pending(child: Name, dsSet: seq<Ds>)

  // ----- RDATA lists -----

  function ParseAll<T>(parse: Bytes -> Option<T>, rrset: seq<Record>): (r: Option<seq<T>>)
    ensures r.Some? ==> |r.value| == |rrset|
                        && forall i | 0 <= i < |rrset| :: parse(rrset[i].rdata) == Some(r.value[i])
    ensures r.Some? <==> forall i | 0 <= i < |rrset| :: parse(rrset[i].rdata).Some?
  {
    if rrset == [] then Some([])
    else match (parse(rrset[0].rdata), ParseAll(parse, rrset[1..]))
         case (Some(first), Some(rest)) => Some([first] + rest)
         case _ => None
  }

  function ParseKeys(link: Link): Result<seq<Dnskey>, WalkError> {
    match ParseAll(ParseDnskey, link.rrset)
    case None => Err(MalformedRdata(DNSKEY))
    case Some(keys) => Ok(keys)
  }

  function ParseDsSet(link: Link): Result<seq<Ds>, WalkError> {
    match ParseAll(ParseDs, link.rrset)
    case None => Err(MalformedRdata(DS))
    case Some(dsSet) => Ok(dsSet)
  }

  /** Octets as the text the record grammar reads. */
  function AsText(b: Bytes): (s: string)
    ensures |s| == |b|
  {
    seq(|b|, i requires 0 <= i < |b| => b[i] as char)
  }

  /** The binding one RDATA spells, if it spells one. */
  function BindingOf(canonical: KeyTest, rdata: Bytes): Option<TxtRecord> {
    match ParseTxt(rdata)
    case None => None
    case Some(text) =>
      match Classify(canonical, AsText(text))
      case Ok(Binding(record)) => Some(record)
      case _ => None
  }

  function ParseBindings(canonical: KeyTest, rrset: seq<Record>): seq<TxtRecord> {
    if rrset == [] then []
    else
      (match BindingOf(canonical, rrset[0].rdata)
       case Some(record) => [record]
       case None => [])
      + ParseBindings(canonical, rrset[1..])
  }

  // ----- one signature that verifies -----

  /** The zone's keys that the signature's tag and algorithm point at. */
  function Hinted(rrsig: Rrsig, keys: seq<Dnskey>): (r: seq<Dnskey>)
    ensures forall k :: k in r <==> k in keys && k.Tag() == rrsig.keyTag && k.algorithm == rrsig.algorithm
  {
    if keys == [] then []
    else if keys[0].Tag() == rrsig.keyTag && keys[0].algorithm == rrsig.algorithm then
      [keys[0]] + Hinted(rrsig, keys[1..])
    else Hinted(rrsig, keys[1..])
  }

  function TryKeys(c: Crypto, rrsig: Rrsig, link: Link, keys: seq<Dnskey>, last: WalkError): Result<(), WalkError> {
    if keys == [] then Err(last)
    else match Verify(c, rrsig, link, keys[0])
         case Ok(_) => Ok(())
         case Err(e) => TryKeys(c, rrsig, link, keys[1..], BadlySigned(e))
  }

  function TrySignatures(c: Crypto, zone: Name, keys: seq<Dnskey>, link: Link, sigs: seq<Rrsig>, last: WalkError)
    : Result<Rrsig, WalkError>
  {
    if sigs == [] then Err(last)
    else if sigs[0].signer != zone then TrySignatures(c, zone, keys, link, sigs[1..], SignerMismatch)
    else match TryKeys(c, sigs[0], link, Hinted(sigs[0], keys) + keys, last)
         case Ok(_) => Ok(sigs[0])
         case Err(e) => TrySignatures(c, zone, keys, link, sigs[1..], e)
  }

  /** A signature the walk may use: made by the zone, and verifying under one of its keys. */
  ghost predicate Usable(c: Crypto, zone: Name, keys: seq<Dnskey>, link: Link, rrsig: Rrsig) {
    rrsig.signer == zone && exists key | key in keys :: Verify(c, rrsig, link, key).Ok?
  }

  // ----- the steps -----

  function Intersect(w: Walk, rrsig: Rrsig): Result<Walk, WalkError> {
    match NewWindow(rrsig.inception, rrsig.expiration)
    case None => Err(EmptyWindow)
    case Some(window) =>
      var lo := if w.lo >= window.inception then w.lo else window.inception;
      var hi := if w.hi <= window.expiration then w.hi else window.expiration;
      if hi < lo then Err(EmptyWindow) else Ok(w.(lo := lo, hi := hi))
  }

  function VerifySignedLink(j: Judge, w: Walk, link: Link): Result<(Walk, Rrsig), WalkError> {
    var rrsig :- TrySignatures(j.crypto, w.zone, w.keys, link, link.signatures, NoUsableSignature);
    var narrowed :- Intersect(w, rrsig);
    Ok((narrowed, rrsig))
  }

  predicate Anchored(j: Judge, owner: Name, keys: seq<Dnskey>) {
    exists anchor, key | anchor in j.anchors && key in keys :: AnchorMatches(j.crypto, anchor, owner, key)
  }

  /** Enter the walk at an anchor-matched DNSKEY RRset that its own keys sign. */
  function EnterAnchored(j: Judge, link: Link): Result<Walk, WalkError> {
    if link.rtype != DNSKEY then Err(UnexpectedLink(link.rtype, false))
    else
      var keys :- ParseKeys(link);
      if !Anchored(j, link.owner, keys) then Err(Unanchored)
      else
        var entered :- VerifySignedLink(j, Walk(link.owner, keys, link.owner, keys, 0, FOREVER), link);
        Ok(entered.0)
  }

  function VerifyDelegation(j: Judge, w: Walk, link: Link): Result<(Walk, Pending), WalkError> {
    if !IsAncestorOrSelf(w.zone, link.owner) || w.zone == link.owner then Err(NotDescending)
    else
      var verified :- VerifySignedLink(j, w, link);
      var dsSet :- ParseDsSet(link);
      Ok((verified.0, Pending(link.owner, dsSet)))
  }

  predicate DsMatched(j: Judge, child: Name, keys: seq<Dnskey>, dsSet: seq<Ds>) {
    exists key, ds | key in keys && ds in dsSet :: DsMatches(j.crypto, child, key, ds)
  }

  /** Cross a zone cut: child keys that match the pending DS set and sign themselves. */
  function CrossInto(j: Judge, w: Walk, link: Link, pending: Pending): Result<Walk, WalkError> {
    if link.rtype != DNSKEY || link.owner != pending.child then Err(UnexpectedLink(link.rtype, true))
    else
      var keys :- ParseKeys(link);
      if !DsMatched(j, pending.child, keys, pending.dsSet) then Err(DsMismatch)
      else
        var verified :- VerifySignedLink(j, w.(zone := pending.child, keys := keys), link);
        Ok(verified.0)
  }

  /** A target outside the current zone re-enters at the anchored root. */
  function Reroot(w: Walk, target: Name): Walk {
    if IsAncestorOrSelf(w.zone, target) then w else w.(zone := w.rootZone, keys := w.rootKeys)
  }

  function FollowCname(j: Judge, w: Walk, link: Link, target: Name): Result<(Walk, Name), WalkError> {
    if link.owner != target then Err(WrongOwner)
    else
      var verified :- VerifySignedLink(j, w, link);
      if link.rrset == [] then Err(MalformedRdata(CNAME))
      else match ParseCname(link.rrset[0].rdata)
           case None => Err(MalformedRdata(CNAME))
           case Some(next) => Ok((Reroot(verified.0, next), next))
  }

  function FinishBinding(j: Judge, w: Walk, link: Link, target: Name): Result<ChainProof, WalkError> {
    if link.owner != target then Err(WrongOwner)
    else
      var (walk, rrsig) :- VerifySignedLink(j, w, link);
      // Fewer labels than the owner: an expanded wildcard, whose proof would be negative.
      if rrsig.labels < |target| then Err(WildcardExpansion)
      else match NewWindow(walk.lo, walk.hi)
           case None => Err(EmptyWindow)
           case Some(window) => Ok(ChainProof(ParseBindings(j.canonical, link.rrset), window))
  }

  // ----- the walk over a chain -----

  /** Everything one link can change. */
  datatype Progress = Progress(walk: Walk, target: Name, pending: Option<Pending>, hops: nat)

  datatype Outcome = Going(progress: Progress) | Finished(proof: ChainProof)

  function TakeLink(j: Judge, p: Progress, link: Link): Result<Outcome, WalkError> {
    if p.pending.None? && link.rtype == DS then
      var (walk, pending) :- VerifyDelegation(j, p.walk, link);
      Ok(Going(p.(walk := walk, pending := Some(pending))))
    else if p.pending.Some? && link.rtype == DNSKEY then
      var walk :- CrossInto(j, p.walk, link, p.pending.value);
      Ok(Going(p.(walk := walk, pending := None)))
    else if p.pending.None? && link.rtype == CNAME then
      if p.hops >= MAX_CNAME_HOPS then Err(TooManyCnames)
      else
        var (walk, target) :- FollowCname(j, p.walk, link, p.target);
        Ok(Going(p.(walk := walk, target := target, hops := p.hops + 1)))
    // Denial links prove nothing and are skipped unverified.
    else if p.pending.None? && (link.rtype == NSEC || link.rtype == NSEC3) then Ok(Going(p))
    else if p.pending.None? && link.rtype == TXT then
      var proof :- FinishBinding(j, p.walk, link, p.target);
      Ok(Finished(proof))
    else Err(UnexpectedLink(link.rtype, p.pending.Some?))
  }

  lemma {:induction false} RefusedSignatures(c: Crypto, zone: Name, keys: seq<Dnskey>, link: Link, sigs: seq<Rrsig>,
                                             last: WalkError)
    requires !last.UnexpectedLink?
    ensures var r := TrySignatures(c, zone, keys, link, sigs, last); r.Ok? || !r.error.UnexpectedLink?
  {
    hide Hinted;
    if sigs != [] {
      RefusedSignatures(c, zone, keys, link, sigs[1..], SignerMismatch);
      var all := Hinted(sigs[0], keys) + keys;
      RefusedKeys(c, sigs[0], link, all, last);
      match TryKeys(c, sigs[0], link, all, last) {
        case Ok(_) =>
        case Err(e) => RefusedSignatures(c, zone, keys, link, sigs[1..], e);
      }
    }
  }

  lemma {:induction false} RefusedKeys(c: Crypto, rrsig: Rrsig, link: Link, keys: seq<Dnskey>, last: WalkError)
    requires !last.UnexpectedLink?
    ensures var r := TryKeys(c, rrsig, link, keys, last); r.Ok? || !r.error.UnexpectedLink?
  {
    hide Verify;
    if keys != [] && Verify(c, rrsig, link, keys[0]).Err? {
      RefusedKeys(c, rrsig, link, keys[1..], BadlySigned(Verify(c, rrsig, link, keys[0]).error));
    }
  }

  /** A link is out of place: anything but the child's keys after a DS, keys or a foreign type elsewhere. */
  ghost predicate OutOfPlace(p: Progress, link: Link) {
    match p.pending
    case Some(pending) => link.rtype != 48 || link.owner != pending.child
    case None => link.rtype != 43 && link.rtype != 5 && link.rtype != 16 && link.rtype != 47 && link.rtype != 50
  }

  lemma {:induction false} OutOfPlaceExactly(j: Judge, p: Progress, link: Link, t: nat, afterDs: bool)
    ensures TakeLink(j, p, link) == Err(UnexpectedLink(t, afterDs)) <==>
            OutOfPlace(p, link) && t == link.rtype && afterDs == p.pending.Some?
  {
    hide TrySignatures, ParseBindings, ParseCname, IsAncestorOrSelf, DsMatched;
    RefusedSignatures(j.crypto, p.walk.zone, p.walk.keys, link, link.signatures, NoUsableSignature);
    if p.pending.Some? && ParseKeys(link).Ok? {
      RefusedSignatures(j.crypto, p.pending.value.child, ParseKeys(link).value, link, link.signatures,
                        NoUsableSignature);
    }
  }

  function WalkLinks(j: Judge, p: Progress, links: seq<Link>): Result<ChainProof, WalkError>
    decreases |links|
  {
    if links == [] then Err(MissingLeaf)
    else
      var outcome :- TakeLink(j, p, links[0]);
      match outcome
      case Finished(proof) => Ok(proof)
      case Going(next) => WalkLinks(j, next, links[1..])
  }

  function ParseLinks(frames: seq<Bytes>): (r: Result<seq<Link>, WalkError>)
    ensures r.Ok? ==> |r.value| == |frames|
  {
    if frames == [] then Ok([])
    else match ParseLink(frames[0])
         case Err(e) => Err(Parse(e))
         case Ok(link) =>
           var rest :- ParseLinks(frames[1..]);
           Ok([link] + rest)
  }

  /** A chain parses when every frame does, each to its own link; otherwise the first bad frame is the error. */
  lemma {:induction false} ParsedFrames(frames: seq<Bytes>)
    ensures ParseLinks(frames).Ok? <==> forall i | 0 <= i < |frames| :: ParseLink(frames[i]).Ok?
    ensures ParseLinks(frames).Ok? ==>
              forall i | 0 <= i < |frames| :: ParseLink(frames[i]) == Ok(ParseLinks(frames).value[i])
    ensures ParseLinks(frames).Err? ==>
              exists i :: 0 <= i < |frames| && ParseLink(frames[i]).Err?
                          && ParseLinks(frames) == Err(Parse(ParseLink(frames[i]).error))
                          && forall k | 0 <= k < i :: ParseLink(frames[k]).Ok?
  {
    hide ParseLink;
    if frames != [] {
      var tail := frames[1..];
      ParsedFrames(tail);
      assert forall i | 0 <= i < |tail| :: tail[i] == frames[i + 1];
      if ParseLink(frames[0]).Err? {
        assert ParseLinks(frames) == Err(Parse(ParseLink(frames[0]).error));
      } else if ParseLinks(tail).Err? {
        var i :| 0 <= i < |tail| && ParseLink(tail[i]).Err? && ParseLinks(tail) == Err(Parse(ParseLink(tail[i]).error))
                 && forall k | 0 <= k < i :: ParseLink(tail[k]).Ok?;
        assert ParseLinks(frames) == Err(Parse(ParseLink(frames[i + 1]).error));
        forall k | 0 <= k < i + 1 ensures ParseLink(frames[k]).Ok? {
          if k > 0 {
            assert frames[k] == tail[k - 1];
          }
        }
      }
    }
  }

  /** `_onomancy.<hostname>` as labels, if it fits in a wire name. */
  function OnomancyOwner(hostname: Bytes): Option<Name> {
    var owner := [SERVICE_LABEL] + Split(hostname, '.' as byte);
    if WireLen(owner) > MAX_WIRE_LEN then None else Some(owner)
  }

  /** Labels that a dot joins into the hostname. */
  ghost predicate LabelsOf(hostname: Bytes, labels: seq<Bytes>) {
    labels != [] && (forall i | 0 <= i < |labels| :: 46 !in labels[i]) && Join(labels, 46) == hostname
  }

  /** The owner is the label `_onomancy` and then the hostname's, exactly when they fit in 255 octets of wire. */
  lemma {:induction false} OwnerExactly(hostname: Bytes, labels: seq<Bytes>)
    requires LabelsOf(hostname, labels)
    ensures |SERVICE_LABEL| == 9 && forall i | 0 <= i < 9 :: SERVICE_LABEL[i] as int == "_onomancy"[i] as int
    ensures var owner := [SERVICE_LABEL] + labels;
            OnomancyOwner(hostname) == if |WriteName(owner)| <= 255 then Some(owner) else None
  {
    assert '.' as byte == 46;
    SplitJoin(labels, 46);
  }

  /** Every hostname has such labels. */
  lemma HostnameLabels(hostname: Bytes) returns (labels: seq<Bytes>)
    ensures LabelsOf(hostname, labels)
  {
    labels := Split(hostname, 46);
    JoinSplit(hostname, 46);
    SplitPieces(hostname, 46);
  }

  function ValidateLinks(j: Judge, hostname: Bytes, links: seq<Link>): Result<ChainProof, WalkError> {
    if links == [] then Err(EmptyChain)
    else
      var walk :- EnterAnchored(j, links[0]);
      match OnomancyOwner(hostname)
      case None => Err(UnrepresentableName)
      case Some(owner) => WalkLinks(j, Progress(walk, owner, None, 0), links[1..])
  }

  /** The whole judgement of a framed chain. */
  function Validate(j: Judge, hostname: Bytes, frames: seq<Bytes>): Result<ChainProof, WalkError> {
    var links :- ParseLinks(frames);
    ValidateLinks(j, hostname, links)
  }

  // ----- the walk as the source runs it -----

  class WalkState {
    var zone: Name
    var keys: seq<Dnskey>
    const rootZone: Name
    const rootKeys: seq<Dnskey>
    var lo: nat
    var hi: nat

    ghost function Value(): Walk
      reads this
    {
      Walk(zone, keys, rootZone, rootKeys, lo, hi)
    }

    constructor (owner: Name, keys: seq<Dnskey>)
      ensures Value() == Walk(owner, keys, owner, keys, 0, FOREVER)
    {
      this.zone, this.keys, this.rootZone, this.rootKeys := owner, keys, owner, keys;
      this.lo, this.hi := 0, FOREVER;
    }

    method IntersectWindow(rrsig: Rrsig) returns (r: Result<(), WalkError>)
      modifies this
      ensures r.Ok? <==> Intersect(old(Value()), rrsig).Ok?
      ensures r.Ok? ==> Value() == Intersect(old(Value()), rrsig).value
      ensures r.Err? ==> r.error == Intersect(old(Value()), rrsig).error
      ensures zone == old(zone) && keys == old(keys)
    {
      match NewWindow(rrsig.inception, rrsig.expiration) {
        case None => return Err(EmptyWindow);
        case Some(window) =>
          if window.inception > lo { lo := window.inception; }
          if window.expiration < hi { hi := window.expiration; }
          if hi < lo {
            return Err(EmptyWindow);
          }
          return Ok(());
      }
    }

    /** Try every (signature, key) pair, hinted keys first. */
    method VerifySigned(j: Judge, link: Link) returns (r: Result<Rrsig, WalkError>)
      modifies this
      ensures match VerifySignedLink(j, old(Value()), link)
              case Ok(v) => r == Ok(v.1) && Value() == v.0
              case Err(e) => r == Err(e)
    {
      var last: WalkError := NoUsableSignature;
      var sigs := link.signatures;
      ghost var whole := TrySignatures(j.crypto, zone, keys, link, sigs, NoUsableSignature);
      for i := 0 to |sigs|
        invariant Value() == old(Value())
        invariant TrySignatures(j.crypto, zone, keys, link, sigs[i..], last) == whole
      {
        var rrsig := sigs[i];
        assert sigs[i..][1..] == sigs[i + 1..];
        if rrsig.signer != zone {
          last := SignerMismatch;
          continue;
        }
        var hinted := Hinted(rrsig, keys) + keys;
        ghost var tried := TryKeys(j.crypto, rrsig, link, hinted, last);
        var found := false;
        for k := 0 to |hinted|
          invariant Value() == old(Value())
          invariant TryKeys(j.crypto, rrsig, link, hinted[k..], last) == tried
        {
          assert hinted[k..][1..] == hinted[k + 1..];
          match Verify(j.crypto, rrsig, link, hinted[k]) {
            case Ok(_) =>
              found := true;
              assert whole == Ok(rrsig);
              break;
            case Err(e) => last := BadlySigned(e);
          }
        }
        if found {
          assert whole == Ok(rrsig);
          var narrowed := IntersectWindow(rrsig);
          if narrowed.Err? {
            return Err(narrowed.error);
          }
          return Ok(rrsig);
        }
      }
      return Err(last);
    }

    /** Enter the walk at an anchor-matched, self-signed DNSKEY RRset. */
    static method Enter(j: Judge, link: Link) returns (r: Result<WalkState, WalkError>)
      ensures match EnterAnchored(j, link)
              case Ok(w) => r.Ok? && fresh(r.value) && r.value.Value() == w
              case Err(e) => r == Err(e)
    {
      if link.rtype != DNSKEY {
        return Err(UnexpectedLink(link.rtype, false));
      }
      var keys :- ParseKeys(link);
      if !Anchored(j, link.owner, keys) {
        return Err(Unanchored);
      }
      var state := new WalkState(link.owner, keys);
      var _ :- state.VerifySigned(j, link);
      return Ok(state);
    }

    /** A DS RRset introducing a child zone cut. */
    method Delegate(j: Judge, link: Link) returns (r: Result<Pending, WalkError>)
      modifies this
      ensures match VerifyDelegation(j, old(Value()), link)
              case Ok(v) => r == Ok(v.1) && Value() == v.0
              case Err(e) => r == Err(e)
    {
      if !IsAncestorOrSelf(zone, link.owner) || zone == link.owner {
        return Err(NotDescending);
      }
      var _ :- VerifySigned(j, link);
      var dsSet :- ParseDsSet(link);
      return Ok(Pending(link.owner, dsSet));
    }

    /** Cross a zone cut. */
    method DescendTo(j: Judge, link: Link, pending: Pending) returns (r: Result<(), WalkError>)
      modifies this
      ensures match CrossInto(j, old(Value()), link, pending)
              case Ok(w) => r == Ok(()) && Value() == w
              case Err(e) => r == Err(e)
    {
      if link.rtype != DNSKEY || link.owner != pending.child {
        return Err(UnexpectedLink(link.rtype, true));
      }
      var childKeys :- ParseKeys(link);
      if !DsMatched(j, pending.child, childKeys, pending.dsSet) {
        return Err(DsMismatch);
      }
      zone, keys := pending.child, childKeys;
      var _ :- VerifySigned(j, link);
      return Ok(());
    }

    /** A CNAME at the target, and the zone its own target is sought from. */
    method Follow(j: Judge, link: Link, target: Name) returns (r: Result<Name, WalkError>)
      modifies this
      ensures match FollowCname(j, old(Value()), link, target)
              case Ok(v) => r == Ok(v.1) && Value() == v.0
              case Err(e) => r == Err(e)
    {
      if link.owner != target {
        return Err(WrongOwner);
      }
      var _ :- VerifySigned(j, link);
      if link.rrset == [] {
        return Err(MalformedRdata(CNAME));
      }
      match ParseCname(link.rrset[0].rdata) {
        case None => return Err(MalformedRdata(CNAME));
        case Some(next) =>
          if !IsAncestorOrSelf(zone, next) {
            zone, keys := rootZone, rootKeys;
          }
          return Ok(next);
      }
    }

    /** The leaf: a TXT RRset at the possibly CNAME-followed target. */
    method Finish(j: Judge, link: Link, target: Name) returns (r: Result<ChainProof, WalkError>)
      modifies this
      ensures r == FinishBinding(j, old(Value()), link, target)
    {
      if link.owner != target {
        return Err(WrongOwner);
      }
      var rrsig :- VerifySigned(j, link);
      if rrsig.labels < |target| {
        return Err(WildcardExpansion);
      }
      match NewWindow(lo, hi) {
        case None => return Err(EmptyWindow);
        case Some(window) => return Ok(ChainProof(ParseBindings(j.canonical, link.rrset), window));
      }
    }
  }

  /** Parse every frame first; a frame that does not parse fails the chain. */
  method ParseFrames(frames: seq<Bytes>) returns (r: Result<seq<Link>, WalkError>)
    ensures r == ParseLinks(frames)
    ensures r.Ok? <==> forall i | 0 <= i < |frames| :: ParseLink(frames[i]).Ok?
    ensures r.Ok? ==> |r.value| == |frames| && forall i | 0 <= i < |frames| :: ParseLink(frames[i]) == Ok(r.value[i])
  {
    hide ParseLink;
    ParsedFrames(frames);
    var links: seq<Link> := [];
    assert frames[0..] == frames;
    assert ParseLinks(frames).Ok? ==> links + ParseLinks(frames).value == ParseLinks(frames).value;
    for i := 0 to |frames|
      invariant match ParseLinks(frames[i..])
                case Ok(rest) => ParseLinks(frames) == Ok(links + rest)
                case Err(e) => ParseLinks(frames) == Err(e)
    {
      assert frames[i..][1..] == frames[i + 1..];
      var parsed := Links.Parse(frames[i]);
      match parsed {
        case Err(e) => return Err(WalkError.Parse(e));
        case Ok(link) =>
          assert forall rest: seq<Link> :: links + ([link] + rest) == links + [link] + rest;
          links := links + [link];
      }
    }
    assert links + [] == links;
    return Ok(links);
  }

  /** Validate a chain for `hostname`'s `_onomancy` owner name. */
  method ValidateDetailed(j: Judge, hostname: Bytes, frames: seq<Bytes>) returns (r: Result<ChainProof, WalkError>)
    ensures r == Validate(j, hostname, frames)
  {
    hide ParseLink, ParseLinks, EnterAnchored, OnomancyOwner;
    hide VerifyDelegation, CrossInto, FollowCname, FinishBinding;
    var links :- ParseFrames(frames);
    if links == [] {
      return Err(EmptyChain);
    }
    var walk :- WalkState.Enter(j, links[0]);
    var owner := OnomancyOwner(hostname);
    if owner.None? {
      return Err(UnrepresentableName);
    }
    var target := owner.value;
    var pendingDs: Option<Pending> := None;
    var hops := 0;
    ghost var whole := WalkLinks(j, Progress(walk.Value(), target, None, 0), links[1..]);
    for i := 1 to |links|
      invariant fresh(walk)
      invariant WalkLinks(j, Progress(walk.Value(), target, pendingDs, hops), links[i..]) == whole
    {
      var link := links[i];
      assert links[i..][1..] == links[i + 1..];
      if link.rtype == DS && pendingDs.None? {
        var pending :- walk.Delegate(j, link);
        pendingDs := Some(pending);
      } else if link.rtype == DNSKEY && pendingDs.Some? {
        var pending := pendingDs.value;
        pendingDs := None;
        var _ :- walk.DescendTo(j, link, pending);
      } else if link.rtype == CNAME && pendingDs.None? {
        if hops >= MAX_CNAME_HOPS {
          return Err(TooManyCnames);
        }
        hops := hops + 1;
        target :- walk.Follow(j, link, target);
      } else if (link.rtype == NSEC || link.rtype == NSEC3) && pendingDs.None? {
        // Denial links prove nothing and are skipped.
      } else if link.rtype == TXT && pendingDs.None? {
        r := walk.Finish(j, link, target);
        return;
      } else {
        return Err(UnexpectedLink(link.rtype, pendingDs.Some?));
      }
    }
    return Err(MissingLeaf);
  }
}
