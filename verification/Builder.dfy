/**
 The chain-building walk (onomancy_chain/src/builder.rs): a machine that hands out one
 question at a time and consumes the records that answer it. A resolver's records are
 those of the Records module; re-encoding one is `WriteRecord`.
 */
module Builder {
  import opened Wrappers
  import opened Wire
  import opened Names
  import opened Records
  import opened Links
  import opened Validator

  datatype BuildError =
    | MissingRrset(owner: Name, rtype: nat)
    | OversizeChain(bytes: nat)
    | TooManyHops
    | HostnameTooLong

  datatype Question = Question(name: Name, rtype: nat)

  /** The framed links and their running octet total. */
  datatype Framed = Framed(links: seq<Bytes>, bytes: nat)

  /** A cut takes two answers: its DS records, then its keys. */
  datatype Cut = AwaitDs | AwaitKeys

  /** The CNAME walk over one leaf answer; `remaining` counts TXT checks left. */
  datatype LeafWalk = LeafWalk(answers: seq<Record>, current: Name, remaining: nat)

  /** Where the walk goes when no suffix is left to probe. */
  datatype Resume = ToLeaf(owner: Name) | ToWalk(walk: LeafWalk)

  /** A cut descent down one branch; `depth` is the label depth of the suffix just asked about. */
  datatype Descent = Descent(name: Name, depth: nat, awaiting: Cut, deepest: Name, resume: Resume)

  datatype Phase = RootKeysPhase(owner: Name) | Descending(descent: Descent) | AtLeaf(owner: Name)

  datatype Machine = Machine(framed: Framed, currentZone: Name, phase: Phase)

  datatype Step = Ask(machine: Machine, question: Question) | Done(chain: seq<Bytes>)

  /** A turn that asks, or one that goes on walking a leaf answer it already holds. */
  datatype Turn = Asked(machine: Machine, question: Question) | Advancing(framed: Framed, walk: LeafWalk, zone: Name)

  // ----- framing -----

  function SaturatingAdd(a: nat, b: nat): nat {
    if a + b < U64_LIMIT then a + b else U64_LIMIT - 1
  }

  function Push(f: Framed, link: Bytes): Result<Framed, BuildError> {
    var bytes := SaturatingAdd(f.bytes, |link|);
    if bytes > MAX_UNIT_BYTES then Err(OversizeChain(bytes)) else Ok(Framed(f.links + [link], bytes))
  }

  predicate IsData(r: Record, owner: Name, rtype: nat) {
    r.rtype == rtype && r.owner == owner
  }

  predicate IsSignature(r: Record, owner: Name, rtype: nat) {
    CoveredType(r) == Some(rtype) && r.owner == owner
  }

  /** The data records at `owner`, in answer order. */
  function DataOf(answers: seq<Record>, owner: Name, rtype: nat): (r: seq<Record>)
    ensures forall d :: d in r <==> d in answers && IsData(d, owner, rtype)
  {
    if answers == [] then []
    else (if IsData(answers[0], owner, rtype) then [answers[0]] else []) + DataOf(answers[1..], owner, rtype)
  }

  /** The RRSIG records at `owner` that cover `rtype`, in answer order. */
  function SignaturesOf(answers: seq<Record>, owner: Name, rtype: nat): (r: seq<Record>)
    ensures forall d :: d in r <==> d in answers && IsSignature(d, owner, rtype)
  {
    if answers == [] then []
    else (if IsSignature(answers[0], owner, rtype) then [answers[0]] else []) + SignaturesOf(answers[1..], owner, rtype)
  }

  predicate HasData(answers: seq<Record>, owner: Name, rtype: nat) {
    exists r | r in answers :: IsData(r, owner, rtype)
  }

  /** One link: the RRset at `owner`, then the RRSIGs that cover it there. */
  function FrameRrset(answers: seq<Record>, owner: Name, rtype: nat): Result<Bytes, BuildError> {
    var data, signatures := DataOf(answers, owner, rtype), SignaturesOf(answers, owner, rtype);
    if data == [] || signatures == [] then Err(MissingRrset(owner, rtype))
    else Ok(WriteRecords(data + signatures))
  }

  function PushRrset(f: Framed, answers: seq<Record>, owner: Name, rtype: nat): Result<Framed, BuildError> {
    var link :- FrameRrset(answers, owner, rtype);
    Push(f, link)
  }

  /** The target of the first CNAME record at `current`. */
  function FindCname(answers: seq<Record>, current: Name): Option<Name> {
    if answers == [] then None
    else if IsData(answers[0], current, CNAME) && ParseCname(answers[0].rdata).Some? then ParseCname(answers[0].rdata)
    else FindCname(answers[1..], current)
  }

  // ----- the machine -----

  function Start(owner: Name): Step {
    Ask(Machine(Framed([], 0), ROOT, RootKeysPhase(owner)), Question(ROOT, DNSKEY))
  }

  function StartFor(hostname: Bytes): Result<Step, BuildError> {
    match OnomancyOwner(hostname)
    case None => Err(HostnameTooLong)
    case Some(owner) => Ok(Start(owner))
  }

  /** Building begins at the root's keys, for the `_onomancy` owner, unless that owner does not fit. */
  lemma {:induction false} StartsExactly(hostname: Bytes, labels: seq<Bytes>)
    requires LabelsOf(hostname, labels)
    ensures var owner := [SERVICE_LABEL] + labels;
            StartFor(hostname) ==
            if |WriteName(owner)| > 255 then Err(HostnameTooLong)
            else Ok(Ask(Machine(Framed([], 0), [], RootKeysPhase(owner)), Question([], 48)))
  {
    OwnerExactly(hostname, labels);
  }

  function Suspend(d: Descent, f: Framed): Machine {
    Machine(f, ROOT, Descending(d))
  }

  /** The descent is over: its last cut is the zone the walk goes on from. */
  function FinishDescent(f: Framed, deepest: Name, resume: Resume): Turn {
    match resume
    case ToLeaf(owner) => Asked(Machine(f, deepest, AtLeaf(owner)), Question(owner, TXT))
    case ToWalk(walk) => Advancing(f, walk, deepest)
  }

  /** Descend `name`'s branch from `fromDepth`, or resume at once when no suffix remains. */
  function Descend(f: Framed, name: Name, fromDepth: nat, deepest: Name, resume: Resume): (t: Turn)
    ensures fromDepth <= |name| ==> t.Asked?
  {
    if fromDepth > |name| then FinishDescent(f, deepest, resume)
    else Asked(Suspend(Descent(name, fromDepth, AwaitDs, deepest, resume), f), Question(TrimTo(name, fromDepth), DS))
  }

  /** The suffix one label longer is probed next, if there is one. */
  function NextCut(d: Descent, f: Framed): Turn {
    if d.depth >= |d.name| then FinishDescent(f, d.deepest, d.resume)
    else
      var next := d.(depth := d.depth + 1, awaiting := AwaitDs);
      Asked(Suspend(next, f), Question(TrimTo(d.name, d.depth + 1), DS))
  }

  function DescentAnswer(d: Descent, f: Framed, records: seq<Record>): Result<Turn, BuildError> {
    var zone := TrimTo(d.name, d.depth);
    match d.awaiting
    case AwaitDs =>
      // No DS data: not a zone cut, or an unsigned one.
      if !HasData(records, zone, DS) then Ok(NextCut(d, f))
      else
        var pushed :- PushRrset(f, records, zone, DS);
        Ok(Asked(Suspend(d.(awaiting := AwaitKeys), pushed), Question(zone, DNSKEY)))
    case AwaitKeys =>
      var pushed :- PushRrset(f, records, zone, DNSKEY);
      Ok(NextCut(d.(deepest := zone), pushed))
  }

  /** Frame leaf links until done, out of hops, or suspended on a descent for a hop target. */
  function Advance(f: Framed, w: LeafWalk, zone: Name): Result<Step, BuildError>
    decreases w.remaining
  {
    if w.remaining == 0 then Err(TooManyHops)
    else if HasData(w.answers, w.current, TXT) then
      var pushed :- PushRrset(f, w.answers, w.current, TXT);
      Ok(Done(pushed.links))
    else match FindCname(w.answers, w.current)
         case None => Err(MissingRrset(w.current, TXT))
         case Some(target) =>
           var pushed :- PushRrset(f, w.answers, w.current, CNAME);
           var (fromDepth, base) := HopFrom(zone, target);
           var next := LeafWalk(w.answers, target, w.remaining - 1);
           if fromDepth <= |target| then
             var turn := Descend(pushed, target, fromDepth, base, ToWalk(next));
             Ok(Ask(turn.machine, turn.question))
           else Advance(pushed, next, zone)
  }

  /** Where a hop's descent starts: below the current zone inside it, at the top outside it. */
  function HopFrom(zone: Name, target: Name): (r: (nat, Name))
    ensures r.0 >= 1 && r.0 == |r.1| + 1
  {
    if IsAncestorOrSelf(zone, target) then (|zone| + 1, zone) else (1, ROOT)
  }

  /** The suspended machine a hop's descent leaves behind. */
  function HopDescent(f: Framed, target: Name, zone: Name, next: LeafWalk): Step {
    var (fromDepth, base) := HopFrom(zone, target);
    Ask(Suspend(Descent(target, fromDepth, AwaitDs, base, ToWalk(next)), f), Question(TrimTo(target, fromDepth), DS))
  }

  /** One round of the leaf loop, unfolded. */
  lemma AdvanceRound(f: Framed, w: LeafWalk, zone: Name)
    ensures Advance(f, w, zone).Ok? ==>
              && w.remaining > 0
              && (HasData(w.answers, w.current, TXT) ==>
                    PushRrset(f, w.answers, w.current, TXT).Ok?
                    && Advance(f, w, zone) == Ok(Done(PushRrset(f, w.answers, w.current, TXT).value.links)))
              && (!HasData(w.answers, w.current, TXT) ==>
                    && FindCname(w.answers, w.current).Some? && PushRrset(f, w.answers, w.current, CNAME).Ok?
                    && var target := FindCname(w.answers, w.current).value;
                       var pushed := PushRrset(f, w.answers, w.current, CNAME).value;
                       var next := LeafWalk(w.answers, target, w.remaining - 1);
                       Advance(f, w, zone) == if HopFrom(zone, target).0 <= |target|
                                              then Ok(HopDescent(pushed, target, zone, next))
                                              else Advance(pushed, next, zone))
  {
    hide PushRrset, HasData, FindCname, HopFrom, TrimTo;
  }

  /** The turn an answer leads to. */
  function TurnOf(m: Machine, records: seq<Record>): Result<Turn, BuildError> {
    match m.phase
    case RootKeysPhase(owner) =>
      var pushed :- PushRrset(m.framed, records, ROOT, DNSKEY);
      Ok(Descend(pushed, owner, 1, ROOT, ToLeaf(owner)))
    case Descending(d) => DescentAnswer(d, m.framed, records)
    case AtLeaf(owner) => Ok(Advancing(m.framed, LeafWalk(records, owner, MAX_CNAME_HOPS + 1), m.currentZone))
  }

  function Settle(t: Turn): Result<Step, BuildError> {
    match t
    case Asked(m, q) => Ok(Ask(m, q))
    case Advancing(f, w, zone) => Advance(f, w, zone)
  }

  /** Feed the records that answer the question last asked. */
  function Answer(m: Machine, records: seq<Record>): Result<Step, BuildError> {
    var turn :- TurnOf(m, records);
    Settle(turn)
  }

  /** The question a waiting machine has asked: the root's keys, a name's DS set or keys, or the leaf's TXT set. */
  ghost function AskedBy(m: Machine): Question {
    match m.phase
    case RootKeysPhase(_) => Question([], 48)
    case Descending(d) => Question(TrimTo(d.name, d.depth), if d.awaiting.AwaitDs? then 43 else 48)
    case AtLeaf(owner) => Question(owner, 16)
  }

  lemma {:induction false} AdvanceAsks(f: Framed, w: LeafWalk, zone: Name)
    ensures Advance(f, w, zone).Ok? && Advance(f, w, zone).value.Ask? ==>
              AskedBy(Advance(f, w, zone).value.machine) == Advance(f, w, zone).value.question
    decreases w.remaining
  {
    hide PushRrset, HasData, FindCname, HopFrom, Advance;
    AdvanceRound(f, w, zone);
    if Advance(f, w, zone).Ok? && Advance(f, w, zone).value.Ask? {
      var target := FindCname(w.answers, w.current).value;
      var pushed := PushRrset(f, w.answers, w.current, CNAME).value;
      if HopFrom(zone, target).0 > |target| {
        AdvanceAsks(pushed, LeafWalk(w.answers, target, w.remaining - 1), zone);
      }
    }
  }

  /** Whatever it is answered, the question a machine asks next is the one it then waits on. */
  lemma {:induction false} AnswerAsks(m: Machine, records: seq<Record>)
    ensures Answer(m, records).Ok? && Answer(m, records).value.Ask? ==>
              AskedBy(Answer(m, records).value.machine) == Answer(m, records).value.question
  {
    hide PushRrset, HasData, Advance, TrimTo;
    if TurnOf(m, records).Ok? && TurnOf(m, records).value.Advancing? {
      var t := TurnOf(m, records).value;
      AdvanceAsks(t.framed, t.walk, t.zone);
    }
  }

  /** The record is a CNAME at `current` that points at `target`. */
  ghost predicate PointsAt(r: Record, current: Name, target: Name) {
    r.owner == current && r.rtype == 5 && ValidName(target) && r.rdata == WriteName(target)
  }

  /** The first answer that is a readable CNAME is followed, and none is when there is none. */
  lemma {:induction false} CnameFound(answers: seq<Record>, current: Name, target: Name)
    ensures FindCname(answers, current) == Some(target) <==>
            exists i :: 0 <= i < |answers| && PointsAt(answers[i], current, target)
                        && forall k, other | 0 <= k < i :: !PointsAt(answers[k], current, other)
  {
    if answers != [] {
      var first, rest := answers[0], answers[1..];
      CnameFound(rest, current, target);
      forall other
        ensures PointsAt(first, current, other) <==>
                IsData(first, current, CNAME) && ParseCname(first.rdata) == Some(other)
      {
        CnameLayout(first.rdata, other);
      }
      hide ParseCname, PointsAt;
      if i :| 0 <= i < |rest| && PointsAt(rest[i], current, target)
              && forall k, other | 0 <= k < i :: !PointsAt(rest[k], current, other)
      {
        if IsData(first, current, CNAME) && ParseCname(first.rdata).Some? {
          assert PointsAt(first, current, ParseCname(first.rdata).value);
        } else {
          assert answers[i + 1] == rest[i];
          forall k, other | 0 <= k < i + 1 ensures !PointsAt(answers[k], current, other) {
            if k > 0 { assert answers[k] == rest[k - 1]; }
          }
        }
      }
      if i :| 0 <= i < |answers| && PointsAt(answers[i], current, target)
              && forall k, other | 0 <= k < i :: !PointsAt(answers[k], current, other)
      {
        if i > 0 {
          assert rest[i - 1] == answers[i];
          forall k, other | 0 <= k < i - 1 ensures !PointsAt(rest[k], current, other) {
            assert rest[k] == answers[k + 1];
          }
        }
      }
    }
  }

  // ----- the machine as the source runs it -----

  class FramedLinks {
    var links: seq<Bytes>
    var bytes: nat

    ghost function Value(): Framed
      reads this
    {
      Framed(links, bytes)
    }

    constructor (f: Framed)
      ensures Value() == f
    {
      links, bytes := f.links, f.bytes;
    }

    method PushLink(link: Bytes) returns (r: Result<(), BuildError>)
      modifies this
      ensures match Push(old(Value()), link)
              case Ok(f) => r == Ok(()) && Value() == f
              case Err(e) => r == Err(e)
    {
      bytes := SaturatingAdd(bytes, |link|);
      if bytes > MAX_UNIT_BYTES {
        return Err(OversizeChain(bytes));
      }
      links := links + [link];
      return Ok(());
    }
  }

  /** Collect and re-encode one RRset and its signatures. */
  method Frame(answers: seq<Record>, owner: Name, rtype: nat) returns (r: Result<Bytes, BuildError>)
    ensures r == FrameRrset(answers, owner, rtype)
  {
    hide WriteRecord, IsData, IsSignature;
    var data, signatures := DataOf(answers, owner, rtype), SignaturesOf(answers, owner, rtype);
    if data == [] || signatures == [] {
      return Err(MissingRrset(owner, rtype));
    }
    var records := data + signatures;
    var bytes: Bytes := [];
    for i := 0 to |records|
      invariant bytes + WriteRecords(records[i..]) == WriteRecords(records)
    {
      assert records[i..][1..] == records[i + 1..];
      bytes := bytes + WriteRecord(records[i]);
    }
    assert bytes + [] == bytes;
    return Ok(bytes);
  }

  method PushFrame(links: FramedLinks, answers: seq<Record>, owner: Name, rtype: nat)
    returns (r: Result<(), BuildError>)
    modifies links
    ensures match PushRrset(old(links.Value()), answers, owner, rtype)
            case Ok(f) => r == Ok(()) && links.Value() == f
            case Err(e) => r == Err(e)
  {
    var link :- Frame(answers, owner, rtype);
    r := links.PushLink(link);
  }

  /** The leaf loop. */
  method AdvanceWalk(links: FramedLinks, walk: LeafWalk, zone: Name) returns (r: Result<Step, BuildError>)
    modifies links
    ensures r == Advance(old(links.Value()), walk, zone)
  {
    hide PushRrset, HasData, FindCname, Descend, HopFrom;
    ghost var whole := Advance(links.Value(), walk, zone);
    var current, remaining := walk.current, walk.remaining;
    while true
      invariant Advance(links.Value(), LeafWalk(walk.answers, current, remaining), zone) == whole
      decreases remaining
    {
      if remaining == 0 {
        return Err(TooManyHops);
      }
      remaining := remaining - 1;
      if HasData(walk.answers, current, TXT) {
        var _ :- PushFrame(links, walk.answers, current, TXT);
        return Ok(Done(links.links));
      }
      match FindCname(walk.answers, current) {
        case None => return Err(MissingRrset(current, TXT));
        case Some(target) =>
          var _ :- PushFrame(links, walk.answers, current, CNAME);
          var (fromDepth, base) := HopFrom(zone, target);
          current := target;
          if fromDepth <= |target| {
            var resume := ToWalk(LeafWalk(walk.answers, current, remaining));
            var turn := Descend(Framed(links.links, links.bytes), target, fromDepth, base, resume);
            return Ok(Ask(turn.machine, turn.question));
          }
      }
    }
  }

  /** One answer to a descent. */
  method AnswerDescent(descent: Descent, links: FramedLinks, records: seq<Record>) returns (r: Result<Turn, BuildError>)
    modifies links
    ensures r == DescentAnswer(descent, old(links.Value()), records)
    ensures r.Ok? && r.value.Advancing? ==> r.value.framed == links.Value()
  {
    hide PushRrset, HasData;
    var d := descent;
    var zone := TrimTo(d.name, d.depth);
    match d.awaiting {
      case AwaitDs =>
        if !HasData(records, zone, DS) {
          return Ok(NextCut(d, Framed(links.links, links.bytes)));
        }
        var _ :- PushFrame(links, records, zone, DS);
        d := d.(awaiting := AwaitKeys);
        return Ok(Asked(Suspend(d, Framed(links.links, links.bytes)), Question(zone, DNSKEY)));
      case AwaitKeys =>
        var _ :- PushFrame(links, records, zone, DNSKEY);
        d := d.(deepest := zone);
        return Ok(NextCut(d, Framed(links.links, links.bytes)));
    }
  }

  /** Feed one answer to the machine, consuming it. */
  method AnswerMachine(m: Machine, records: seq<Record>) returns (r: Result<Step, BuildError>)
    ensures r == Answer(m, records)
  {
    hide PushRrset, DescentAnswer, Advance;
    var links := new FramedLinks(m.framed);
    match m.phase {
      case RootKeysPhase(owner) =>
        var _ :- PushFrame(links, records, ROOT, DNSKEY);
        var turn := Descend(Framed(links.links, links.bytes), owner, 1, ROOT, ToLeaf(owner));
        return Ok(Ask(turn.machine, turn.question));
      case Descending(d) =>
        var turn :- AnswerDescent(d, links, records);
        if turn.Asked? {
          return Ok(Ask(turn.machine, turn.question));
        }
        r := AdvanceWalk(links, turn.walk, turn.zone);
      case AtLeaf(owner) =>
        r := AdvanceWalk(links, LeafWalk(records, owner, MAX_CNAME_HOPS + 1), m.currentZone);
    }
  }
}
