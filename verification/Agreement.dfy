/**
 The builder and the validator track the same walk. The builder's links are reduced to
 their shapes; a course of shapes tells where the validator must be, unless it has
 refused a link for a reason no builder can foresee (a bad signature, say).
 */
module Agreement {
  import opened Wrappers
  import opened Wire
  import opened Names
  import opened Records
  import opened Links
  import opened Validator
  import opened Builder
  import opened BuilderRuns

  // ----- courses of shapes -----

  /** What the walk's structure sees of a link: type, owner, and a CNAME's target. */
  datatype Shape = Shape(rtype: nat, owner: Name, target: Option<Name>)

  datatype Track = Track(zone: Name, target: Name, pending: Option<Name>, hops: nat)

  /** Still walking; refused for some unstructural reason; at the leaf; refused structurally. */
  datatype Course = On(track: Track) | Stuck | Arrived | Tripped

  function LinkShape(link: Link): Shape {
    Shape(link.rtype, link.owner, if link.rrset == [] then None else ParseCname(link.rrset[0].rdata))
  }

  /** The shape of a frame, from its first record. */
  function ShapeOf(frame: Bytes): Shape {
    match ReadRecord(frame)
    case Err(_) => Shape(0, ROOT, None)
    case Ok((r, _)) => Shape(r.rtype, r.owner, ParseCname(r.rdata))
  }

  function ShapesOf(frames: seq<Bytes>): (r: seq<Shape>)
    ensures |r| == |frames|
  {
    seq(|frames|, i requires 0 <= i < |frames| => ShapeOf(frames[i]))
  }

  function Follow(t: Track, s: Shape): Course {
    if t.pending.None? && s.rtype == DS then
      if IsAncestorOrSelf(t.zone, s.owner) && t.zone != s.owner then On(t.(pending := Some(s.owner))) else Tripped
    else if t.pending.Some? && s.rtype == DNSKEY then
      if s.owner == t.pending.value then On(t.(zone := s.owner, pending := None)) else Tripped
    else if t.pending.None? && s.rtype == CNAME then
      if t.hops >= MAX_CNAME_HOPS || s.owner != t.target then Tripped
      else match s.target
           case None => Stuck
           case Some(target) =>
             var zone := if IsAncestorOrSelf(t.zone, target) then t.zone else ROOT;
             On(t.(zone := zone, target := target, hops := t.hops + 1))
    else if t.pending.None? && (s.rtype == NSEC || s.rtype == NSEC3) then On(t)
    else if t.pending.None? && s.rtype == TXT then
      if s.owner == t.target then Arrived else Tripped
    else Tripped
  }

  function Next(c: Course, s: Shape): Course {
    match c
    case On(t) => Follow(t, s)
    case _ => c
  }

  function Along(c: Course, shapes: seq<Shape>): Course
    decreases |shapes|
  {
    if shapes == [] then c else Along(Next(c, shapes[0]), shapes[1..])
  }

  lemma {:induction false} AlongAppend(c: Course, shapes: seq<Shape>, s: Shape)
    ensures Along(c, shapes + [s]) == Next(Along(c, shapes), s)
    decreases |shapes|
  {
    hide Next;
    if shapes != [] {
      assert (shapes + [s])[1..] == shapes[1..] + [s];
      AlongAppend(Next(c, shapes[0]), shapes[1..], s);
    }
  }

  lemma {:induction false} StuckAlong(c: Course, shapes: seq<Shape>)
    requires !c.On?
    ensures Along(c, shapes) == c
    decreases |shapes|
  {
    if shapes != [] {
      StuckAlong(c, shapes[1..]);
    }
  }

  /** Where a chain's links lead from the root's keys. */
  function CourseOf(owner: Name, frames: seq<Bytes>): Course
    requires frames != []
  {
    Along(On(Track(ROOT, owner, None, 0)), ShapesOf(frames[1..]))
  }

  // ----- the validator follows the course -----

  function TrackOf(p: Progress): Track {
    var pending := match p.pending case None => None case Some(d) => Some(d.child);
    Track(p.walk.zone, p.target, pending, p.hops)
  }

  /** The outcomes that say the chain itself is misbuilt. */
  predicate Structural(e: WalkError) {
    e.UnexpectedLink? || e.NotDescending? || e.WrongOwner? || e.TooManyCnames? || e.MissingLeaf? || e.EmptyChain?
  }

  lemma SignedKeepsZone(j: Judge, w: Walk, link: Link)
    ensures var r := VerifySignedLink(j, w, link);
            && (r.Ok? ==> r.value.0 == w.(lo := r.value.0.lo, hi := r.value.0.hi))
            && (r.Err? ==> !Structural(r.error))
  {
    hide Dnssec.Verify;
    TriedErrors(j, w.zone, w.keys, link, link.signatures, NoUsableSignature);
  }

  lemma {:induction false} TriedErrors(j: Judge, zone: Name, keys: seq<Dnskey>, link: Link, sigs: seq<Rrsig>,
                                       last: WalkError)
    requires !Structural(last)
    ensures var r := TrySignatures(j.crypto, zone, keys, link, sigs, last); r.Err? ==> !Structural(r.error)
  {
    hide Dnssec.Verify;
    if sigs != [] {
      TriedKeyErrors(j, sigs[0], link, Hinted(sigs[0], keys) + keys, last);
      var e := if sigs[0].signer != zone then SignerMismatch
               else var r := TryKeys(j.crypto, sigs[0], link, Hinted(sigs[0], keys) + keys, last);
                    if r.Err? then r.error else last;
      TriedErrors(j, zone, keys, link, sigs[1..], e);
    }
  }

  lemma {:induction false} TriedKeyErrors(j: Judge, rrsig: Rrsig, link: Link, keys: seq<Dnskey>, last: WalkError)
    requires !Structural(last)
    ensures var r := TryKeys(j.crypto, rrsig, link, keys, last); r.Err? ==> !Structural(r.error)
  {
    hide Dnssec.Verify;
    if keys != [] && Dnssec.Verify(j.crypto, rrsig, link, keys[0]).Err? {
      TriedKeyErrors(j, rrsig, link, keys[1..], BadlySigned(Dnssec.Verify(j.crypto, rrsig, link, keys[0]).error));
    }
  }

  /** One link moves the validator as its shape moves the course. */
  lemma TakesCourse(j: Judge, p: Progress, link: Link)
    requires p.walk.rootZone == ROOT
    ensures var r := TakeLink(j, p, link);
            && (r.Ok? && r.value.Going? ==> r.value.progress.walk.rootZone == ROOT)
            && match Follow(TrackOf(p), LinkShape(link))
               case On(t) =>
                 (r.Ok? ==> r.value.Going? && TrackOf(r.value.progress) == t) && (r.Err? ==> !Structural(r.error))
               case Stuck => r.Err? && !Structural(r.error)
               case Arrived => (r.Ok? ==> r.value.Finished?) && (r.Err? ==> !Structural(r.error))
               case Tripped => r.Err?
  {
    hide VerifySignedLink, ParseCname, ParseKeys, ParseDsSet, DsMatched, ParseBindings;
    SignedKeepsZone(j, p.walk, link);
    KeysErrors(link);
    if p.pending.Some? && ParseKeys(link).Ok? {
      SignedKeepsZone(j, p.walk.(zone := p.pending.value.child, keys := ParseKeys(link).value), link);
    }
  }

  lemma KeysErrors(link: Link)
    ensures ParseKeys(link).Err? ==> !Structural(ParseKeys(link).error)
    ensures ParseDsSet(link).Err? ==> !Structural(ParseDsSet(link).error)
  {
  }

  function LinkShapes(links: seq<Link>): (r: seq<Shape>)
    ensures |r| == |links|
  {
    seq(|links|, i requires 0 <= i < |links| => LinkShape(links[i]))
  }

  lemma LinkShapesTail(links: seq<Link>)
    requires links != []
    ensures LinkShapes(links)[0] == LinkShape(links[0]) && LinkShapes(links)[1..] == LinkShapes(links[1..])
  {
  }

  /** A course that arrives, or gets stuck, is never refused structurally. */
  lemma {:induction false} CourseJudged(j: Judge, p: Progress, links: seq<Link>)
    requires p.walk.rootZone == ROOT
    requires var c := Along(On(TrackOf(p)), LinkShapes(links)); c.Arrived? || c.Stuck?
    ensures var r := WalkLinks(j, p, links); r.Err? ==> !Structural(r.error)
    decreases |links|
  {
    hide TakeLink, Follow, LinkShape;
    if links != [] {
      TakesCourse(j, p, links[0]);
      LinkShapesTail(links);
      var c := Follow(TrackOf(p), LinkShape(links[0]));
      var r := TakeLink(j, p, links[0]);
      StuckOrOn(c, LinkShapes(links)[1..]);
      if c.On? && r.Ok? {
        CourseJudged(j, r.value.progress, links[1..]);
      }
    }
  }

  lemma StuckOrOn(c: Course, shapes: seq<Shape>)
    ensures !c.On? ==> Along(c, shapes) == c
  {
    if !c.On? {
      StuckAlong(c, shapes);
    }
  }

  /** The walk after some links, if it is still going. */
  function Replay(j: Judge, p: Progress, links: seq<Link>): Option<Progress>
    decreases |links|
  {
    if links == [] then Some(p)
    else match TakeLink(j, p, links[0])
         case Ok(Going(next)) => Replay(j, next, links[1..])
         case _ => None
  }

  /** Where a validator stands after a prefix of a chain, if it has accepted all of it. */
  function Standing(j: Judge, owner: Name, frames: seq<Bytes>): Option<Progress> {
    match ParseLinks(frames)
    case Err(_) => None
    case Ok(links) =>
      if links == [] then None
      else match EnterAnchored(j, links[0])
           case Err(_) => None
           case Ok(walk) => Replay(j, Progress(walk, owner, None, 0), links[1..])
  }

  /** `Replay` is the validator's own walk, stopped part of the way. */
  lemma {:induction false} ReplayIsTheWalk(j: Judge, p: Progress, a: seq<Link>, b: seq<Link>)
    requires Replay(j, p, a).Some?
    ensures WalkLinks(j, p, a + b) == WalkLinks(j, Replay(j, p, a).value, b)
    decreases |a|
  {
    hide TakeLink;
    if a == [] {
      assert a + b == b;
    } else {
      assert (a + b)[1..] == a[1..] + b;
      ReplayIsTheWalk(j, TakeLink(j, p, a[0]).value.progress, a[1..], b);
    }
  }

  lemma {:induction false} ReplayOnCourse(j: Judge, p: Progress, links: seq<Link>)
    requires p.walk.rootZone == ROOT && Replay(j, p, links).Some?
    ensures Along(On(TrackOf(p)), LinkShapes(links)) == On(TrackOf(Replay(j, p, links).value))
    decreases |links|
  {
    hide TakeLink, Follow, LinkShape;
    if links != [] {
      TakesCourse(j, p, links[0]);
      LinkShapesTail(links);
      ReplayOnCourse(j, TakeLink(j, p, links[0]).value.progress, links[1..]);
    }
  }

  // ----- frames keep their shape -----

  /** If the frame parses at all, it parses to its shape. */
  ghost predicate GoodFrame(b: Bytes) {
    ParseLink(b).Ok? ==> LinkShape(ParseLink(b).value) == ShapeOf(b)
  }

  ghost predicate ValidAnswers(records: seq<Record>) {
    forall r | r in records :: ValidRecord(r)
  }

  lemma FramedShape(answers: seq<Record>, owner: Name, rtype: nat)
    requires ValidAnswers(answers) && rtype != RRSIG && FrameRrset(answers, owner, rtype).Ok?
    ensures var b := FrameRrset(answers, owner, rtype).value;
            var data := DataOf(answers, owner, rtype);
            data != [] && GoodFrame(b) && ShapeOf(b) == Shape(rtype, owner, ParseCname(data[0].rdata))
  {
    hide ValidRecord, WriteRecord, ReadRecord, ParseLink, ParseCname;
    var data, sigs := DataOf(answers, owner, rtype), SignaturesOf(answers, owner, rtype);
    var b := WriteRecords(data + sigs);
    assert data[0] in data;
    assert Frames(data, sigs, owner, rtype);
    FrameParses(data, sigs, owner, rtype);
    RecordPrefix(data[0], WriteRecords((data + sigs)[1..]));
  }

  /** The builder's CNAME target is the validator's, unless the first CNAME record has none. */
  lemma {:induction false} FirstTarget(answers: seq<Record>, current: Name)
    ensures DataTarget(answers, current, CNAME).Some? ==>
            FindCname(answers, current) == DataTarget(answers, current, CNAME)
  {
    hide ParseCname;
    if answers != [] {
      FirstTarget(answers[1..], current);
    }
  }

  // ----- the builder stays on course -----

  ghost predicate NoRootTargets(records: seq<Record>) {
    forall r | r in records && r.rtype == CNAME :: ParseCname(r.rdata) != Some(ROOT)
  }

  /**
   The links framed so far put the validator at this target and zone, if it still goes.
   When `exact` is false the validator may instead stand at the root.
   */
  ghost predicate OnCourse(exact: bool, f: Framed, owner: Name, zone: Name, target: Name, pending: Option<Name>,
                           hops: int) {
    && f.links != [] && (forall b | b in f.links :: GoodFrame(b))
    && ShapeOf(f.links[0]).rtype == DNSKEY && ShapeOf(f.links[0]).owner == ROOT
    && var c := CourseOf(owner, f.links);
       c.Stuck? || (c.On? && c.track.target == target && c.track.pending == pending && c.track.hops == hops
                    && (c.track.zone == zone || (!exact && c.track.zone == ROOT)))
  }

  ghost predicate GoodAnswers(exact: bool, records: seq<Record>) {
    ValidAnswers(records) && (exact ==> NoRootTargets(records))
  }

  /** The leaf loop's invariant: hops spent, and the zone above the name when targets avoid the root. */
  ghost predicate HeadOnCourse(exact: bool, f: Framed, w: LeafWalk, zone: Name, owner: Name) {
    && GoodAnswers(exact, w.answers) && w.remaining <= MAX_CNAME_HOPS + 1
    && (w.remaining > 0 ==>
          && OnCourse(exact, f, owner, zone, w.current, None, MAX_CNAME_HOPS + 1 - w.remaining)
          && (exact ==> IsAncestorOrSelf(zone, w.current)))
  }

  ghost predicate DescentOnCourse(exact: bool, f: Framed, d: Descent, owner: Name) {
    && 1 <= d.depth <= |d.name|
    && (match d.resume
        case ToLeaf(o) => o == owner == d.name
        case ToWalk(w) => w.current == d.name && w.remaining <= MAX_CNAME_HOPS && GoodAnswers(exact, w.answers))
    && (!OutOfHops(d) ==>
          && IsAncestorOrSelf(d.deepest, d.name) && |d.deepest| < d.depth
          && OnCourse(exact, f, owner, d.deepest, d.name, PendingCut(d), HopsTaken(d)))
  }

  /** A descent whose hop was one too many: it can only end in a refusal. */
  predicate OutOfHops(d: Descent) {
    d.resume.ToWalk? && d.resume.walk.remaining == 0
  }

  function PendingCut(d: Descent): Option<Name> {
    if d.awaiting.AwaitKeys? then Some(TrimTo(d.name, d.depth)) else None
  }

  function HopsTaken(d: Descent): int {
    match d.resume
    case ToLeaf(_) => 0
    case ToWalk(w) => MAX_CNAME_HOPS + 1 - w.remaining
  }

  ghost predicate MachineOnCourse(exact: bool, m: Machine, owner: Name) {
    match m.phase
    case RootKeysPhase(o) => o == owner && m.framed.links == []
    case AtLeaf(o) => o == owner && IsAncestorOrSelf(m.currentZone, owner)
                      && OnCourse(exact, m.framed, owner, m.currentZone, owner, None, 0)
    case Descending(d) => DescentOnCourse(exact, m.framed, d, owner)
  }

  ghost predicate TurnOnCourse(exact: bool, t: Turn, owner: Name) {
    match t
    case Asked(m, _) => MachineOnCourse(exact, m, owner)
    case Advancing(f, w, zone) => HeadOnCourse(exact, f, w, zone, owner)
  }

  /** One more frame moves the course by its shape. */
  lemma PushMoves(f: Framed, owner: Name, b: Bytes)
    requires f.links != []
    ensures CourseOf(owner, f.links + [b]) == Next(CourseOf(owner, f.links), ShapeOf(b))
  {
    hide ShapeOf, Next;
    var frames := f.links[1..];
    assert (f.links + [b])[1..] == frames + [b];
    assert ShapesOf(frames + [b]) == ShapesOf(frames) + [ShapeOf(b)];
    AlongAppend(On(Track(ROOT, owner, None, 0)), ShapesOf(frames), ShapeOf(b));
  }

  /** The CNAME target of the first data record, for RRsets that have one. */
  function DataTarget(answers: seq<Record>, owner: Name, rtype: nat): Option<Name> {
    var data := DataOf(answers, owner, rtype);
    if data == [] then None else ParseCname(data[0].rdata)
  }

  lemma {:induction false} PushedFrame(f: Framed, answers: seq<Record>, owner: Name, rtype: nat) returns (b: Bytes)
    requires ValidAnswers(answers) && rtype != RRSIG && PushRrset(f, answers, owner, rtype).Ok?
    ensures PushRrset(f, answers, owner, rtype).value.links == f.links + [b]
    ensures GoodFrame(b) && ShapeOf(b) == Shape(rtype, owner, DataTarget(answers, owner, rtype))
  {
    hide GoodFrame, ShapeOf, ParseCname, ValidAnswers;
    FramedShape(answers, owner, rtype);
    b := FrameRrset(answers, owner, rtype).value;
  }

  /** Framing a DS RRset for the suffix being probed. */
  lemma {:induction false} PushDs(exact: bool, f: Framed, d: Descent, owner: Name, records: seq<Record>)
    requires DescentOnCourse(exact, f, d, owner) && d.awaiting.AwaitDs? && ValidAnswers(records)
    requires PushRrset(f, records, TrimTo(d.name, d.depth), DS).Ok?
    ensures var pushed := PushRrset(f, records, TrimTo(d.name, d.depth), DS).value;
            DescentOnCourse(exact, pushed, d.(awaiting := AwaitKeys), owner)
  {
    hide PushRrset, GoodFrame, ShapeOf, DataTarget, CourseOf, GoodAnswers;
    if !OutOfHops(d) {
      var child := TrimTo(d.name, d.depth);
      var b := PushedFrame(f, records, child, DS);
      PushMoves(f, owner, b);
      TrimIsAncestor(d.name, d.depth);
      AncestorsNest(d.deepest, child, d.name);
    }
  }

  /** Framing the child's keys: the suffix becomes the deepest cut, for builder and validator alike. */
  lemma {:induction false} PushKeys(exact: bool, f: Framed, d: Descent, owner: Name, records: seq<Record>)
    requires DescentOnCourse(exact, f, d, owner) && d.awaiting.AwaitKeys? && ValidAnswers(records) && !OutOfHops(d)
    requires PushRrset(f, records, TrimTo(d.name, d.depth), DNSKEY).Ok?
    ensures var child := TrimTo(d.name, d.depth);
            OnCourse(exact, PushRrset(f, records, child, DNSKEY).value, owner, child, d.name, None, HopsTaken(d))
  {
    hide PushRrset, GoodFrame, ShapeOf, DataTarget, CourseOf, GoodAnswers;
    var child := TrimTo(d.name, d.depth);
    var b := PushedFrame(f, records, child, DNSKEY);
    PushMoves(f, owner, b);
  }

  /** The next suffix, or the end of the descent, from a cut just settled. */
  lemma {:induction false} NextCutOnCourse(exact: bool, f: Framed, d: Descent, owner: Name)
    requires 1 <= d.depth <= |d.name|
    requires match d.resume
             case ToLeaf(o) => o == owner == d.name
             case ToWalk(w) => w.current == d.name && w.remaining <= MAX_CNAME_HOPS && GoodAnswers(exact, w.answers)
    requires !OutOfHops(d) ==> IsAncestorOrSelf(d.deepest, d.name) && |d.deepest| <= d.depth
                               && OnCourse(exact, f, owner, d.deepest, d.name, None, HopsTaken(d))
    ensures TurnOnCourse(exact, NextCut(d, f), owner)
  {
    hide OnCourse, GoodAnswers, TrimTo, IsAncestorOrSelf;
  }

  lemma {:induction false} DescentAnswerOnCourse(exact: bool, d: Descent, f: Framed, owner: Name, records: seq<Record>)
    requires DescentOnCourse(exact, f, d, owner) && ValidAnswers(records) && DescentAnswer(d, f, records).Ok?
    ensures TurnOnCourse(exact, DescentAnswer(d, f, records).value, owner)
  {
    hide PushRrset, OnCourse, HasData, GoodAnswers, IsAncestorOrSelf, ValidAnswers;
    var zone := TrimTo(d.name, d.depth);
    match d.awaiting {
      case AwaitDs =>
        if HasData(records, zone, DS) {
          PushDs(exact, f, d, owner, records);
        } else {
          NextCutOnCourse(exact, f, d, owner);
        }
      case AwaitKeys =>
        var pushed := PushRrset(f, records, zone, DNSKEY).value;
        if !OutOfHops(d) {
          PushKeys(exact, f, d, owner, records);
          TrimIsAncestor(d.name, d.depth);
        }
        NextCutOnCourse(exact, pushed, d.(deepest := zone), owner);
    }
  }

  /** The root's keys begin the course. */
  lemma {:induction false} RootKeysOnCourse(exact: bool, m: Machine, owner: Name, records: seq<Record>)
    requires m.phase.RootKeysPhase? && MachineOnCourse(exact, m, owner) && ValidAnswers(records) &&
            TurnOf(m, records).Ok?
    ensures TurnOnCourse(exact, TurnOf(m, records).value, owner)
  {
    hide PushRrset, GoodFrame, ShapeOf, DataTarget;
    var b := PushedFrame(m.framed, records, ROOT, DNSKEY);
    var pushed := PushRrset(m.framed, records, ROOT, DNSKEY).value;
    assert pushed.links == [b] && pushed.links[1..] == [];
    assert OnCourse(exact, pushed, owner, ROOT, owner, None, 0);
  }

  /** Framing a CNAME: both sides move to the target, and re-root by the same rule. */
  lemma {:induction false} PushCname(exact: bool, f: Framed, w: LeafWalk, zone: Name, owner: Name)
    requires OnCourse(exact, f, owner, zone, w.current, None, MAX_CNAME_HOPS + 1 - w.remaining)
    requires ValidAnswers(w.answers) && 1 < w.remaining <= MAX_CNAME_HOPS + 1
    requires FindCname(w.answers, w.current).Some? && PushRrset(f, w.answers, w.current, CNAME).Ok?
    ensures var target := FindCname(w.answers, w.current).value;
            var resume := if IsAncestorOrSelf(zone, target) then zone else ROOT;
            OnCourse(exact, PushRrset(f, w.answers, w.current, CNAME).value, owner, resume, target, None,
                     MAX_CNAME_HOPS + 2 - w.remaining)
  {
    hide PushRrset, GoodFrame, ShapeOf, DataTarget, CourseOf, NoRootTargets, ValidAnswers;
    var b := PushedFrame(f, w.answers, w.current, CNAME);
    PushMoves(f, owner, b);
    FirstTarget(w.answers, w.current);
  }

  lemma TargetAvoidsRoot(answers: seq<Record>, current: Name)
    requires NoRootTargets(answers)
    ensures FindCname(answers, current) != Some(ROOT)
  {
    hide ParseCname;
    FoundIsTarget(answers, current);
  }

  /** A finished chain is one whose course arrives at the leaf. */
  ghost predicate Arrives(owner: Name, chain: seq<Bytes>) {
    && chain != [] && (forall b | b in chain :: GoodFrame(b))
    && ShapeOf(chain[0]).rtype == DNSKEY && ShapeOf(chain[0]).owner == ROOT
    && (CourseOf(owner, chain).Arrived? || CourseOf(owner, chain).Stuck?)
  }

  lemma {:induction false} PushTxt(exact: bool, f: Framed, w: LeafWalk, zone: Name, owner: Name)
    requires HeadOnCourse(exact, f, w, zone, owner) && w.remaining > 0
    requires PushRrset(f, w.answers, w.current, TXT).Ok?
    ensures Arrives(owner, PushRrset(f, w.answers, w.current, TXT).value.links)
  {
    hide PushRrset, GoodFrame, ShapeOf, DataTarget, CourseOf, NoRootTargets, ValidAnswers;
    var b := PushedFrame(f, w.answers, w.current, TXT);
    PushMoves(f, owner, b);
  }

  ghost predicate StepOnCourse(exact: bool, s: Step, owner: Name) {
    match s
    case Ask(m, _) => MachineOnCourse(exact, m, owner)
    case Done(chain) => Arrives(owner, chain)
  }

  /** The head of the loop's next round, when a hop needs no descent. */
  lemma {:induction false} NextHead(exact: bool, f: Framed, w: LeafWalk, zone: Name, owner: Name)
    requires HeadOnCourse(exact, f, w, zone, owner) && w.remaining > 0
    requires FindCname(w.answers, w.current).Some? && PushRrset(f, w.answers, w.current, CNAME).Ok?
    ensures var target := FindCname(w.answers, w.current).value;
            var pushed := PushRrset(f, w.answers, w.current, CNAME).value;
            var next := LeafWalk(w.answers, target, w.remaining - 1);
            && (HopFrom(zone, target).0 > |target| ==> HeadOnCourse(exact, pushed, next, zone, owner))
            && (HopFrom(zone, target).0 <= |target| ==>
                  MachineOnCourse(exact, HopDescent(pushed, target, zone, next).machine, owner))
  {
    hide PushRrset, OnCourse, NoRootTargets, ValidAnswers, FindCname;
    var target := FindCname(w.answers, w.current).value;
    if w.remaining > 1 {
      PushCname(exact, f, w, zone, owner);
      if exact {
        TargetAvoidsRoot(w.answers, w.current);
      }
      if IsAncestorOrSelf(zone, target) && |zone| + 1 > |target| {
        assert zone == target;
      }
      if !exact && !IsAncestorOrSelf(zone, target) && target == ROOT {
        var pushed := PushRrset(f, w.answers, w.current, CNAME).value;
        RootEitherWay(pushed, owner, zone, target, MAX_CNAME_HOPS + 2 - w.remaining);
      }
    }
  }

  lemma {:induction false} RootEitherWay(f: Framed, owner: Name, zone: Name, target: Name, hops: int)
    requires OnCourse(false, f, owner, ROOT, target, None, hops)
    ensures OnCourse(false, f, owner, zone, target, None, hops)
  {
    hide CourseOf, GoodFrame, ShapeOf;
  }

  lemma {:induction false} AdvanceOnCourse(exact: bool, f: Framed, w: LeafWalk, zone: Name, owner: Name)
    requires HeadOnCourse(exact, f, w, zone, owner) && Advance(f, w, zone).Ok?
    ensures StepOnCourse(exact, Advance(f, w, zone).value, owner)
    decreases w.remaining
  {
    hide PushRrset, HasData, FindCname, HopFrom, Advance, HeadOnCourse, MachineOnCourse, Arrives;
    AdvanceRound(f, w, zone);
    if HasData(w.answers, w.current, TXT) {
      PushTxt(exact, f, w, zone, owner);
    } else {
      NextHead(exact, f, w, zone, owner);
      var target := FindCname(w.answers, w.current).value;
      if HopFrom(zone, target).0 > |target| {
        var pushed := PushRrset(f, w.answers, w.current, CNAME).value;
        AdvanceOnCourse(exact, pushed, LeafWalk(w.answers, target, w.remaining - 1), zone, owner);
      }
    }
  }

  lemma {:induction false} TurnKeepsCourse(exact: bool, m: Machine, owner: Name, records: seq<Record>)
    requires MachineOnCourse(exact, m, owner) && GoodAnswers(exact, records) && TurnOf(m, records).Ok?
    ensures TurnOnCourse(exact, TurnOf(m, records).value, owner)
  {
    hide DescentAnswer, OnCourse, PushRrset;
    match m.phase {
      case RootKeysPhase(_) => RootKeysOnCourse(exact, m, owner, records);
      case Descending(d) => DescentAnswerOnCourse(exact, d, m.framed, owner, records);
      case AtLeaf(_) =>
    }
  }

  ghost predicate RunOnCourse(exact: bool, r: Run, owner: Name) {
    match r
    case Waiting(m, _) => MachineOnCourse(exact, m, owner)
    case Completed(chain) => Arrives(owner, chain)
    case Failed(_) => true
  }

  lemma {:induction false} AnswerOnCourse(exact: bool, m: Machine, owner: Name, records: seq<Record>)
    requires MachineOnCourse(exact, m, owner) && GoodAnswers(exact, records)
    ensures RunOnCourse(exact, After(Answer(m, records)), owner)
  {
    hide TurnOf, Advance, MachineOnCourse, Arrives, GoodAnswers, HeadOnCourse;
    if TurnOf(m, records).Ok? {
      TurnKeepsCourse(exact, m, owner, records);
      var turn := TurnOf(m, records).value;
      if turn.Advancing? && Advance(turn.framed, turn.walk, turn.zone).Ok? {
        AdvanceOnCourse(exact, turn.framed, turn.walk, turn.zone, owner);
      }
    }
  }

  lemma {:induction false} FeedOnCourse(exact: bool, r: Run, owner: Name, answers: seq<seq<Record>>)
    requires RunOnCourse(exact, r, owner) && forall a | a in answers :: GoodAnswers(exact, a)
    ensures RunOnCourse(exact, Feed(r, answers), owner)
    decreases |answers|
  {
    hide Answer, MachineOnCourse, Arrives, GoodAnswers;
    if r.Waiting? && answers != [] {
      assert answers[0] in answers;
      AnswerOnCourse(exact, r.machine, owner, answers[0]);
      FeedOnCourse(exact, After(Answer(r.machine, answers[0])), owner, answers[1..]);
    }
  }

  // ----- from the course back to the validator -----

  /** Parsed good frames have the frames' shapes. */
  lemma {:induction false} ParsedShapes(frames: seq<Bytes>)
    requires ParseLinks(frames).Ok? && forall b | b in frames :: GoodFrame(b)
    ensures LinkShapes(ParseLinks(frames).value) == ShapesOf(frames)
  {
    hide ParseLink, ShapeOf, LinkShape;
    if frames != [] {
      assert frames[0] in frames;
      ParsedShapes(frames[1..]);
      var rest := ParseLinks(frames[1..]).value;
      assert ShapesOf(frames) == [ShapeOf(frames[0])] + ShapesOf(frames[1..]);
      assert LinkShapes(ParseLinks(frames).value) == [LinkShape(ParseLinks(frames).value[0])] + LinkShapes(rest);
    }
  }

  lemma {:induction false} ParseErrors(frames: seq<Bytes>)
    ensures ParseLinks(frames).Err? ==> ParseLinks(frames).error.Parse?
  {
    hide ParseLink;
    if frames != [] {
      ParseErrors(frames[1..]);
    }
  }

  /** Entering at a DNSKEY link fails only for unstructural reasons, and stands at that link's zone. */
  lemma Entered(j: Judge, link: Link)
    requires link.rtype == DNSKEY
    ensures var r := EnterAnchored(j, link);
            && (r.Err? ==> !Structural(r.error))
            && (r.Ok? ==> r.value.zone == link.owner && r.value.rootZone == link.owner)
  {
    hide VerifySignedLink, ParseKeys, Anchored;
    KeysErrors(link);
    if ParseKeys(link).Ok? {
      var keys := ParseKeys(link).value;
      SignedKeepsZone(j, Walk(link.owner, keys, link.owner, keys, 0, FOREVER), link);
    }
  }

  lemma ArrivingChainsJudged(j: Judge, hostname: Bytes, chain: seq<Bytes>)
    requires OnomancyOwner(hostname).Some? && Arrives(OnomancyOwner(hostname).value, chain)
    ensures Validate(j, hostname, chain).Err? ==> !Structural(Validate(j, hostname, chain).error)
  {
    hide ParseLinks, EnterAnchored, OnomancyOwner, GoodFrame, ShapeOf, WalkLinks;
    ParseErrors(chain);
    var owner := OnomancyOwner(hostname).value;
    if ParseLinks(chain).Ok? {
      var links := ParseLinks(chain).value;
      ParsedShapes(chain);
      assert LinkShapes(links)[0] == ShapesOf(chain)[0];
      Entered(j, links[0]);
      var entered := EnterAnchored(j, links[0]);
      if entered.Ok? {
        var p := Progress(entered.value, owner, None, 0);
        LinkShapesTail(links);
        assert ShapesOf(chain)[1..] == ShapesOf(chain[1..]);
        CourseJudged(j, p, links[1..]);
      }
    }
  }

  /**
   Whatever answers the builder is fed, hostile ones included, a chain it finishes is
   never refused as unexpected, not descending, wrongly owned, over-long in CNAMEs,
   empty, or without a leaf.
   */
  lemma BuiltChainsNeverTrip(j: Judge, hostname: Bytes, answers: seq<seq<Record>>)
    requires OnomancyOwner(hostname).Some? && forall a | a in answers :: ValidAnswers(a)
    requires Feed(Begin(OnomancyOwner(hostname).value), answers).Completed?
    ensures var chain := Feed(Begin(OnomancyOwner(hostname).value), answers).chain;
            var r := Validate(j, hostname, chain);
            r.Err? ==> !Structural(r.error)
  {
    hide OnomancyOwner, Validate, Arrives, ValidAnswers;
    var owner := OnomancyOwner(hostname).value;
    FeedOnCourse(false, Begin(owner), owner, answers);
    ArrivingChainsJudged(j, hostname, Feed(Begin(owner), answers).chain);
  }

  // ----- agreement at every CNAME and TXT link -----

  /** A moment the builder frames a link at the query target: its links so far, zone and current name. */
  datatype Head = Head(framed: Framed, zone: Name, name: Name)

  function AdvanceHeads(f: Framed, w: LeafWalk, zone: Name): seq<Head>
    decreases w.remaining
  {
    if w.remaining == 0 then []
    else
      var later :=
        if HasData(w.answers, w.current, TXT) then []
        else match (FindCname(w.answers, w.current), PushRrset(f, w.answers, w.current, CNAME))
             case (Some(target), Ok(pushed)) =>
               if HopFrom(zone, target).0 <= |target| then []
               else AdvanceHeads(pushed, LeafWalk(w.answers, target, w.remaining - 1), zone)
             case _ => [];
      [Head(f, zone, w.current)] + later
  }

  function AnswerHeads(m: Machine, records: seq<Record>): seq<Head> {
    match TurnOf(m, records)
    case Ok(Advancing(f, w, zone)) => AdvanceHeads(f, w, zone)
    case _ => []
  }

  function RunHeads(r: Run, answers: seq<seq<Record>>): seq<Head>
    decreases |answers|
  {
    if !r.Waiting? || answers == [] then []
    else AnswerHeads(r.machine, answers[0]) + RunHeads(After(Answer(r.machine, answers[0])), answers[1..])
  }

  /** A validator that has accepted the links so far stands exactly where the builder does. */
  ghost predicate StandTogether(h: Head, owner: Name) {
    && IsAncestorOrSelf(h.zone, h.name)
    && forall j: Judge | Standing(j, owner, h.framed.links).Some? ::
         var p := Standing(j, owner, h.framed.links).value;
         p.walk.zone == h.zone && p.target == h.name && p.pending.None?
  }

  lemma {:induction false} StandsOnCourse(j: Judge, f: Framed, owner: Name, zone: Name, target: Name, hops: int)
    requires OnCourse(true, f, owner, zone, target, None, hops)
    requires Standing(j, owner, f.links).Some?
    ensures var p := Standing(j, owner, f.links).value; p.walk.zone == zone && p.target == target && p.pending.None?
  {
    hide ParseLinks, EnterAnchored, GoodFrame, ShapeOf, Replay, LinkShape;
    var links := ParseLinks(f.links).value;
    ParsedShapes(f.links);
    assert LinkShapes(links)[0] == ShapesOf(f.links)[0];
    LinkShapesTail(links);
    LinkTypeOfShape(links[0]);
    Entered(j, links[0]);
    var p0 := Progress(EnterAnchored(j, links[0]).value, owner, None, 0);
    assert ShapesOf(f.links)[1..] == ShapesOf(f.links[1..]);
    ReplayOnCourse(j, p0, links[1..]);
  }

  lemma LinkTypeOfShape(link: Link)
    ensures LinkShape(link).rtype == link.rtype && LinkShape(link).owner == link.owner
  {
  }

  lemma {:induction false} HeadAgrees(f: Framed, w: LeafWalk, zone: Name, owner: Name)
    requires HeadOnCourse(true, f, w, zone, owner) && w.remaining > 0
    ensures StandTogether(Head(f, zone, w.current), owner)
  {
    hide Standing, OnCourse;
    forall j: Judge | Standing(j, owner, f.links).Some?
      ensures var p := Standing(j, owner, f.links).value;
              p.walk.zone == zone && p.target == w.current && p.pending.None?
    {
      StandsOnCourse(j, f, owner, zone, w.current, MAX_CNAME_HOPS + 1 - w.remaining);
    }
  }

  lemma {:induction false} AdvanceHeadsAgree(f: Framed, w: LeafWalk, zone: Name, owner: Name)
    requires HeadOnCourse(true, f, w, zone, owner)
    ensures forall h | h in AdvanceHeads(f, w, zone) :: StandTogether(h, owner)
    decreases w.remaining
  {
    hide HeadOnCourse, HasData, FindCname, PushRrset, HopFrom, StandTogether;
    if w.remaining > 0 {
      HeadAgrees(f, w, zone, owner);
      if !HasData(w.answers, w.current, TXT) && FindCname(w.answers, w.current).Some?
         && PushRrset(f, w.answers, w.current, CNAME).Ok? {
        NextHead(true, f, w, zone, owner);
        var target := FindCname(w.answers, w.current).value;
        if HopFrom(zone, target).0 > |target| {
          var pushed := PushRrset(f, w.answers, w.current, CNAME).value;
          AdvanceHeadsAgree(pushed, LeafWalk(w.answers, target, w.remaining - 1), zone, owner);
        }
      }
    }
  }

  lemma {:induction false} RunHeadsAgree(r: Run, owner: Name, answers: seq<seq<Record>>)
    requires RunOnCourse(true, r, owner) && forall a | a in answers :: GoodAnswers(true, a)
    ensures forall h | h in RunHeads(r, answers) :: StandTogether(h, owner)
    decreases |answers|
  {
    hide Answer, TurnOf, MachineOnCourse, Arrives, GoodAnswers, StandTogether, AdvanceHeads, HeadOnCourse;
    if r.Waiting? && answers != [] {
      assert answers[0] in answers;
      AnswerOnCourse(true, r.machine, owner, answers[0]);
      if TurnOf(r.machine, answers[0]).Ok? {
        TurnKeepsCourse(true, r.machine, owner, answers[0]);
        var turn := TurnOf(r.machine, answers[0]).value;
        if turn.Advancing? {
          AdvanceHeadsAgree(turn.framed, turn.walk, turn.zone, owner);
        }
      }
      RunHeadsAgree(After(Answer(r.machine, answers[0])), owner, answers[1..]);
    }
  }

  /**
   When no CNAME target is the root, builder and validator agree at every CNAME and TXT
   link: same zone, same name, and the zone is an ancestor of the name or the name itself.
   */
  lemma ZonesAgree(owner: Name, answers: seq<seq<Record>>)
    requires forall a | a in answers :: ValidAnswers(a) && NoRootTargets(a)
    ensures forall h | h in RunHeads(Begin(owner), answers) :: StandTogether(h, owner)
  {
    hide RunHeads, StandTogether;
    RunHeadsAgree(Begin(owner), owner, answers);
  }

  /** The zone the builder goes on from after a hop: the descent's base, or the zone it had. */
  function ZoneAfterHop(zone: Name, target: Name): Name {
    var (fromDepth, base) := HopFrom(zone, target);
    if fromDepth <= |target| then base else zone
  }

  /**
   Exactly which hop breaks the agreement: one whose target is the root, taken from a
   zone other than the root. The builder keeps its zone; the validator is at the root.
   */
  lemma {:induction false} HopAgreesExactly(j: Judge, f: Framed, w: LeafWalk, zone: Name, owner: Name)
    requires OnCourse(true, f, owner, zone, w.current, None, MAX_CNAME_HOPS + 1 - w.remaining)
    requires ValidAnswers(w.answers) && 1 < w.remaining <= MAX_CNAME_HOPS + 1
    requires FindCname(w.answers, w.current).Some? && PushRrset(f, w.answers, w.current, CNAME).Ok?
    requires Standing(j, owner, PushRrset(f, w.answers, w.current, CNAME).value.links).Some?
    ensures var target := FindCname(w.answers, w.current).value;
            var p := Standing(j, owner, PushRrset(f, w.answers, w.current, CNAME).value.links).value;
            p.walk.zone == ZoneAfterHop(zone, target) <==> !(target == ROOT && zone != ROOT)
  {
    hide Standing, OnCourse, PushRrset, FindCname;
    var target := FindCname(w.answers, w.current).value;
    var pushed := PushRrset(f, w.answers, w.current, CNAME).value;
    PushCname(true, f, w, zone, owner);
    var resume := if IsAncestorOrSelf(zone, target) then zone else ROOT;
    StandsOnCourse(j, pushed, owner, resume, target, MAX_CNAME_HOPS + 2 - w.remaining);
  }
}
