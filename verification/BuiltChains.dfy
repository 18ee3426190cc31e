/**
 Chains the builder finishes stay on the branch of the name being resolved, whatever answers it
 is fed; so those the validator accepts are contained.
 */
module BuiltChains {
  import opened Wire
  import opened Names
  import opened Records
  import opened Links
  import opened Validator
  import opened Builder
  import opened BuilderRuns
  import opened Agreement
  import opened Containment
  import S = Soundness

  // ----- the branch as a course of shapes -----

  /** Resolving this name; past the leaf, or a CNAME with no target; a DS off the name's branch. */
  datatype Branch = Toward(name: Name) | Over | Astray

  function Bend(b: Branch, s: Shape): Branch {
    match b
    case Toward(name) =>
      if s.rtype == DS then (if IsAncestorOrSelf(s.owner, name) then b else Astray)
      else if s.rtype == TXT then Over
      else if s.rtype == CNAME then (match s.target case Some(target) => Toward(target) case None => Over)
      else b
    case _ => b
  }

  function BranchAfter(b: Branch, shapes: seq<Shape>): Branch
    decreases |shapes|
  {
    if shapes == [] then b else BranchAfter(Bend(b, shapes[0]), shapes[1..])
  }

  lemma {:induction false} BranchAppend(b: Branch, shapes: seq<Shape>, s: Shape)
    ensures BranchAfter(b, shapes + [s]) == Bend(BranchAfter(b, shapes), s)
    decreases |shapes|
  {
    hide Bend;
    if shapes != [] {
      assert (shapes + [s])[1..] == shapes[1..] + [s];
      BranchAppend(Bend(b, shapes[0]), shapes[1..], s);
    }
  }

  lemma {:induction false} OverStaysOver(b: Branch, shapes: seq<Shape>)
    requires !b.Toward?
    ensures BranchAfter(b, shapes) == b
    decreases |shapes|
  {
    if shapes != [] {
      OverStaysOver(b, shapes[1..]);
    }
  }

  /** Links whose shapes do not go astray stay on the branch, from the root. */
  lemma {:induction false} ShapesOnBranch(name: Name, links: seq<Link>)
    requires BranchAfter(Toward(name), LinkShapes(links)) != Astray
    ensures OnBranch(ROOT, name, links)
    decreases |links|
  {
    hide ParseCname;
    if links != [] {
      LinkShapesTail(links);
      var next := Bend(Toward(name), LinkShape(links[0]));
      if next.Toward? {
        ShapesOnBranch(next.name, links[1..]);
      } else {
        OverStaysOver(next, LinkShapes(links)[1..]);
      }
    }
  }

  // ----- the builder keeps to it -----

  /** The links framed so far lead toward this name. */
  ghost predicate LeadsTo(f: Framed, owner: Name, name: Name) {
    && f.links != [] && (forall b | b in f.links :: GoodFrame(b)) && ShapeOf(f.links[0]).owner == ROOT
    && var b := BranchAfter(Toward(owner), ShapesOf(f.links[1..])); b == Toward(name) || b == Over
  }

  ghost predicate DescentLeads(f: Framed, d: Descent, owner: Name) {
    && 1 <= d.depth <= |d.name| && LeadsTo(f, owner, d.name) && ResumeLeads(d.resume, owner, d.name)
  }

  ghost predicate ResumeLeads(r: Resume, owner: Name, name: Name) {
    match r
    case ToLeaf(o) => o == owner == name
    case ToWalk(w) => w.current == name && ValidAnswers(w.answers)
  }

  ghost predicate MachineLeads(m: Machine, owner: Name) {
    match m.phase
    case RootKeysPhase(o) => o == owner && m.framed.links == []
    case AtLeaf(o) => o == owner && LeadsTo(m.framed, owner, owner)
    case Descending(d) => DescentLeads(m.framed, d, owner)
  }

  ghost predicate TurnLeads(t: Turn, owner: Name) {
    match t
    case Asked(m, _) => MachineLeads(m, owner)
    case Advancing(f, w, _) => LeadsTo(f, owner, w.current) && ValidAnswers(w.answers)
  }

  /** A finished chain: on the branch to its end. */
  ghost predicate ChainLeads(chain: seq<Bytes>, owner: Name) {
    && chain != [] && (forall b | b in chain :: GoodFrame(b)) && ShapeOf(chain[0]).owner == ROOT
    && BranchAfter(Toward(owner), ShapesOf(chain[1..])) != Astray
  }

  /** Framing an RRset: every frame stays good, and the branch turns by its shape. */
  lemma {:induction false} PushTurns(f: Framed, answers: seq<Record>, owner: Name, rtype: nat, start: Name,
                                     name: Name)
    requires LeadsTo(f, start, name) && ValidAnswers(answers) && rtype != RRSIG
    requires PushRrset(f, answers, owner, rtype).Ok?
    ensures var g := PushRrset(f, answers, owner, rtype).value;
            && g.links != [] && (forall b | b in g.links :: GoodFrame(b)) && ShapeOf(g.links[0]).owner == ROOT
            && var b := BranchAfter(Toward(start), ShapesOf(g.links[1..]));
               b == Bend(Toward(name), Shape(rtype, owner, DataTarget(answers, owner, rtype))) || b == Over
  {
    hide PushRrset, GoodFrame, ShapeOf, DataTarget, ValidAnswers, Bend;
    var b := PushedFrame(f, answers, owner, rtype);
    var frames := f.links[1..];
    assert (f.links + [b])[1..] == frames + [b];
    assert ShapesOf(frames + [b]) == ShapesOf(frames) + [ShapeOf(b)];
    BranchAppend(Toward(start), ShapesOf(frames), ShapeOf(b));
    OverTurns(ShapeOf(b));
  }

  lemma OverTurns(s: Shape)
    ensures Bend(Over, s) == Over
  {
  }

  lemma {:induction false} NextCutLeads(f: Framed, d: Descent, owner: Name)
    requires DescentLeads(f, d, owner)
    ensures TurnLeads(NextCut(d, f), owner)
  {
    hide LeadsTo, TrimTo;
  }

  lemma {:induction false} DescentAnswerLeads(d: Descent, f: Framed, owner: Name, records: seq<Record>)
    requires DescentLeads(f, d, owner) && ValidAnswers(records) && DescentAnswer(d, f, records).Ok?
    ensures TurnLeads(DescentAnswer(d, f, records).value, owner)
  {
    hide PushRrset, HasData, ValidAnswers, GoodFrame, ShapeOf, DataTarget, IsAncestorOrSelf;
    var zone := TrimTo(d.name, d.depth);
    TrimIsAncestor(d.name, d.depth);
    match d.awaiting {
      case AwaitDs =>
        if HasData(records, zone, DS) {
          PushTurns(f, records, zone, DS, owner, d.name);
        } else {
          NextCutLeads(f, d, owner);
        }
      case AwaitKeys =>
        PushTurns(f, records, zone, DNSKEY, owner, d.name);
        NextCutLeads(PushRrset(f, records, zone, DNSKEY).value, d.(deepest := zone), owner);
    }
  }

  lemma {:induction false} TurnOfLeads(m: Machine, owner: Name, records: seq<Record>)
    requires MachineLeads(m, owner) && ValidAnswers(records) && TurnOf(m, records).Ok?
    ensures TurnLeads(TurnOf(m, records).value, owner)
  {
    hide DescentAnswer, PushRrset, GoodFrame, ShapeOf, DataTarget;
    match m.phase {
      case RootKeysPhase(_) =>
        var b := PushedFrame(m.framed, records, ROOT, DNSKEY);
        var pushed := PushRrset(m.framed, records, ROOT, DNSKEY).value;
        assert pushed.links == [b] && pushed.links[1..] == [];
      case Descending(d) => DescentAnswerLeads(d, m.framed, owner, records);
      case AtLeaf(_) =>
    }
  }

  ghost predicate StepLeads(s: Step, owner: Name) {
    match s
    case Ask(m, _) => MachineLeads(m, owner)
    case Done(chain) => ChainLeads(chain, owner)
  }

  lemma {:induction false} AdvanceLeads(f: Framed, w: LeafWalk, zone: Name, owner: Name)
    requires LeadsTo(f, owner, w.current) && ValidAnswers(w.answers) && Advance(f, w, zone).Ok?
    ensures StepLeads(Advance(f, w, zone).value, owner)
    decreases w.remaining
  {
    hide PushRrset, HasData, FindCname, HopFrom, Advance, ValidAnswers, GoodFrame, ShapeOf, DataTarget;
    AdvanceRound(f, w, zone);
    if HasData(w.answers, w.current, TXT) {
      PushTurns(f, w.answers, w.current, TXT, owner, w.current);
    } else {
      PushTurns(f, w.answers, w.current, CNAME, owner, w.current);
      FirstTarget(w.answers, w.current);
      var target, pushed := FindCname(w.answers, w.current).value, PushRrset(f, w.answers, w.current, CNAME).value;
      assert LeadsTo(pushed, owner, target);
      if HopFrom(zone, target).0 > |target| {
        AdvanceLeads(pushed, LeafWalk(w.answers, target, w.remaining - 1), zone, owner);
      }
    }
  }

  ghost predicate RunLeads(r: Run, owner: Name) {
    match r
    case Waiting(m, _) => MachineLeads(m, owner)
    case Completed(chain) => ChainLeads(chain, owner)
    case Failed(_) => true
  }

  lemma {:induction false} FeedLeads(r: Run, owner: Name, answers: seq<seq<Record>>)
    requires RunLeads(r, owner) && forall a | a in answers :: ValidAnswers(a)
    ensures RunLeads(Feed(r, answers), owner)
    decreases |answers|
  {
    hide TurnOf, Advance, MachineLeads, ChainLeads, ValidAnswers, LeadsTo;
    if r.Waiting? && answers != [] {
      assert answers[0] in answers;
      var turn := TurnOf(r.machine, answers[0]);
      if turn.Ok? {
        TurnOfLeads(r.machine, owner, answers[0]);
        if turn.value.Advancing? && Advance(turn.value.framed, turn.value.walk, turn.value.zone).Ok? {
          AdvanceLeads(turn.value.framed, turn.value.walk, turn.value.zone, owner);
        }
      }
      FeedLeads(After(Answer(r.machine, answers[0])), owner, answers[1..]);
    }
  }

  /** A chain the builder finishes stays on the branch, root targets and unhelpful answers included. */
  lemma {:induction false} BuiltChainsStayOnBranch(owner: Name, answers: seq<seq<Record>>)
    requires forall a | a in answers :: ValidAnswers(a)
    requires Feed(Begin(owner), answers).Completed?
    ensures var chain := Feed(Begin(owner), answers).chain;
            ParseLinks(chain).Ok? ==>
              var links := ParseLinks(chain).value;
              links != [] && links[0].owner == ROOT && OnBranch(ROOT, owner, links[1..])
  {
    hide ValidAnswers, GoodFrame, ShapeOf, ParseLinks, OnBranch, LinkShape, Feed;
    FeedLeads(Begin(owner), owner, answers);
    var chain := Feed(Begin(owner), answers).chain;
    if ParseLinks(chain).Ok? {
      var links := ParseLinks(chain).value;
      ParsedShapes(chain);
      assert LinkShapes(links)[0] == ShapesOf(chain)[0];
      LinkTypeOfShape(links[0]);
      LinkShapesTail(links);
      assert ShapesOf(chain)[1..] == ShapesOf(chain[1..]);
      ShapesOnBranch(owner, links[1..]);
    }
  }

  /**
   Whatever answers the builder is fed, if the validator accepts the chain it finishes then in every
   evidence for it each link is signed by a zone that contains its owner.
   */
  lemma {:induction false} BuiltChainsAreContained(j: Judge, hostname: Bytes, answers: seq<seq<Record>>,
                                                   ev: S.Evidence)
    requires OnomancyOwner(hostname).Some? && forall a | a in answers :: ValidAnswers(a)
    requires Feed(Begin(OnomancyOwner(hostname).value), answers).Completed?
    requires Validate(j, hostname, Feed(Begin(OnomancyOwner(hostname).value), answers).chain).Ok?
    requires var owner := OnomancyOwner(hostname).value;
             var chain := Feed(Begin(owner), answers).chain;
             && ParseLinks(chain).Ok?
             && S.Justifies(j, owner, ParseLinks(chain).value, ev, Validate(j, hostname, chain).value)
    ensures Contained(ev)
  {
    hide OnomancyOwner, Validate, ParseLinks, Feed, Contained, OnBranch, S.Justifies, ValidAnswers;
    var owner := OnomancyOwner(hostname).value;
    BuiltChainsStayOnBranch(owner, answers);
    ContainedExactly(j, hostname, Feed(Begin(owner), answers).chain, ev);
  }
}
