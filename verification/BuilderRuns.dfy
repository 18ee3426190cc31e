/**
 Whole runs of the chain builder, against any answers whatever: it never holds more than
 the unit cap, and it stops.
 */
module BuilderRuns {
  import opened Wrappers
  import opened Wire
  import opened Names
  import opened Records
  import opened Links
  import opened Validator
  import opened Builder

  /** A run so far: a question outstanding, a chain, or a refusal. */
  datatype Run =
    | Waiting(machine: Machine, question: Question)
    | Completed(chain: seq<Bytes>)
    | Failed(error: BuildError)

  function After(r: Result<Step, BuildError>): Run {
    match r
    case Err(e) => Failed(e)
    case Ok(Done(chain)) => Completed(chain)
    case Ok(Ask(m, q)) => Waiting(m, q)
  }

  /** Feed a machine a list of answers; answers after it stops are not used. */
  function Feed(r: Run, answers: seq<seq<Record>>): Run
    decreases |answers|
  {
    if !r.Waiting? || answers == [] then r
    else Feed(After(Answer(r.machine, answers[0])), answers[1..])
  }

  function Begin(owner: Name): Run {
    After(Ok(Start(owner)))
  }

  // ----- octets held -----

  function TotalLen(links: seq<Bytes>): nat {
    if links == [] then 0 else |links[0]| + TotalLen(links[1..])
  }

  lemma {:induction false} TotalLenAppend(links: seq<Bytes>, link: Bytes)
    ensures TotalLen(links + [link]) == TotalLen(links) + |link|
  {
    if links != [] {
      assert (links + [link])[1..] == links[1..] + [link];
      TotalLenAppend(links[1..], link);
    }
  }

  /** The running total is the length of what is held, and within the cap. */
  ghost predicate WithinCap(f: Framed) {
    f.bytes == TotalLen(f.links) <= MAX_UNIT_BYTES
  }

  lemma {:induction false} PushKeepsCap(f: Framed, answers: seq<Record>, owner: Name, rtype: nat)
    requires WithinCap(f) && PushRrset(f, answers, owner, rtype).Ok?
    ensures WithinCap(PushRrset(f, answers, owner, rtype).value)
  {
    TotalLenAppend(f.links, FrameRrset(answers, owner, rtype).value);
  }

  lemma {:induction false} AdvanceKeepsCap(f: Framed, w: LeafWalk, zone: Name)
    requires WithinCap(f) && Advance(f, w, zone).Ok?
    ensures match Advance(f, w, zone).value
            case Ask(m, _) => WithinCap(m.framed)
            case Done(chain) => TotalLen(chain) <= MAX_UNIT_BYTES
    decreases w.remaining
  {
    hide PushRrset, HasData, FindCname, HopFrom, Advance;
    AdvanceRound(f, w, zone);
    if HasData(w.answers, w.current, TXT) {
      PushKeepsCap(f, w.answers, w.current, TXT);
    } else {
      var target := FindCname(w.answers, w.current).value;
      PushKeepsCap(f, w.answers, w.current, CNAME);
      if HopFrom(zone, target).0 > |target| {
        var pushed := PushRrset(f, w.answers, w.current, CNAME).value;
        AdvanceKeepsCap(pushed, LeafWalk(w.answers, target, w.remaining - 1), zone);
      }
    }
  }

  lemma TurnKeepsCap(m: Machine, records: seq<Record>)
    requires WithinCap(m.framed) && TurnOf(m, records).Ok?
    ensures match TurnOf(m, records).value
            case Asked(next, _) => WithinCap(next.framed)
            case Advancing(f, _, _) => WithinCap(f)
  {
    hide PushRrset, HasData, WithinCap;
    match m.phase {
      case RootKeysPhase(_) => PushKeepsCap(m.framed, records, ROOT, DNSKEY);
      case Descending(d) =>
        var zone := TrimTo(d.name, d.depth);
        if d.awaiting.AwaitKeys? {
          PushKeepsCap(m.framed, records, zone, DNSKEY);
        } else if HasData(records, zone, DS) {
          PushKeepsCap(m.framed, records, zone, DS);
        }
      case AtLeaf(_) =>
    }
  }

  ghost predicate RunWithinCap(r: Run) {
    match r
    case Waiting(m, _) => WithinCap(m.framed)
    case Completed(chain) => TotalLen(chain) <= MAX_UNIT_BYTES
    case Failed(_) => true
  }

  /** Whatever it is fed, the machine never holds, and never returns, more than the cap. */
  lemma {:induction false} FeedKeepsCap(r: Run, answers: seq<seq<Record>>)
    requires RunWithinCap(r)
    ensures RunWithinCap(Feed(r, answers))
    decreases |answers|
  {
    hide TurnOf, Advance, WithinCap;
    if r.Waiting? && answers != [] {
      var turn := TurnOf(r.machine, answers[0]);
      if turn.Ok? {
        TurnKeepsCap(r.machine, answers[0]);
        if turn.value.Advancing? && Advance(turn.value.framed, turn.value.walk, turn.value.zone).Ok? {
          AdvanceKeepsCap(turn.value.framed, turn.value.walk, turn.value.zone);
        }
      }
      FeedKeepsCap(After(Answer(r.machine, answers[0])), answers[1..]);
    }
  }

  lemma CapHolds(owner: Name, answers: seq<seq<Record>>)
    ensures RunWithinCap(Feed(Begin(owner), answers))
  {
    FeedKeepsCap(Begin(owner), answers);
  }

  // ----- termination -----

  /** Questions a descent can still ask after the one outstanding. */
  function LeftInDescent(d: Descent): nat {
    (if |d.name| > d.depth then 2 * (|d.name| - d.depth) else 0) + (if d.awaiting.AwaitDs? then 1 else 0)
  }

  /** Later phases rank lower; a descent on the leaf walk's behalf ranks lowest. */
  function PhaseRank(m: Machine): nat {
    match m.phase
    case RootKeysPhase(_) => 3
    case Descending(d) => if d.resume.ToLeaf? then 2 else 0
    case AtLeaf(_) => 1
  }

  function HopsLeft(m: Machine): nat {
    match m.phase
    case Descending(d) => (match d.resume case ToWalk(w) => w.remaining case ToLeaf(_) => 0)
    case _ => 0
  }

  function LabelsLeft(m: Machine): nat {
    match m.phase
    case Descending(d) => LeftInDescent(d)
    case _ => 0
  }

  /** The machine's lexicographic measure: phase, then hops, then labels and the record awaited. */
  ghost predicate Shrinks(m: Machine, next: Machine) {
    || PhaseRank(next) < PhaseRank(m)
    || (PhaseRank(next) == PhaseRank(m)
        && (HopsLeft(next) < HopsLeft(m) || (HopsLeft(next) == HopsLeft(m) && LabelsLeft(next) < LabelsLeft(m))))
  }

  /** Some CNAME record among the answers has this target. */
  ghost predicate IsTarget(answers: seq<Record>, target: Name) {
    exists r | r in answers :: r.rtype == CNAME && ParseCname(r.rdata) == Some(target)
  }

  lemma {:induction false} FoundIsTarget(answers: seq<Record>, current: Name)
    ensures FindCname(answers, current).Some? ==> IsTarget(answers, FindCname(answers, current).value)
  {
    hide ParseCname;
    if answers != [] && !(IsData(answers[0], current, CNAME) && ParseCname(answers[0].rdata).Some?) {
      FoundIsTarget(answers[1..], current);
    }
  }

  /** What the leaf walk asks about is a fresh descent for one of its CNAME targets, with a hop spent. */
  ghost predicate Hopped(w: LeafWalk, m: Machine) {
    && m.phase.Descending?
    && var d := m.phase.descent;
       && d.resume.ToWalk? && d.resume.walk.remaining < w.remaining && d.resume.walk.answers == w.answers
       && 1 <= d.depth <= |d.name| && d.awaiting.AwaitDs? && IsTarget(w.answers, d.name)
  }

  lemma {:induction false} AdvanceAsks(f: Framed, w: LeafWalk, zone: Name)
    requires Advance(f, w, zone).Ok? && Advance(f, w, zone).value.Ask?
    ensures Hopped(w, Advance(f, w, zone).value.machine)
    decreases w.remaining
  {
    hide PushRrset, HasData, FindCname, IsTarget, Advance, HopFrom, TrimTo;
    AdvanceRound(f, w, zone);
    FoundIsTarget(w.answers, w.current);
    var target := FindCname(w.answers, w.current).value;
    if HopFrom(zone, target).0 > |target| {
      var pushed := PushRrset(f, w.answers, w.current, CNAME).value;
      AdvanceAsks(pushed, LeafWalk(w.answers, target, w.remaining - 1), zone);
    }
  }

  lemma AnswerShrinks(m: Machine, records: seq<Record>)
    requires Answer(m, records).Ok? && Answer(m, records).value.Ask?
    ensures Shrinks(m, Answer(m, records).value.machine)
  {
    hide PushRrset, HasData, Advance, IsTarget, TrimTo, TurnOf;
    var turn := TurnOf(m, records).value;
    TurnShrinks(m, records);
    if turn.Advancing? {
      AdvanceAsks(turn.framed, turn.walk, turn.zone);
    }
  }

  lemma TurnShrinks(m: Machine, records: seq<Record>)
    requires TurnOf(m, records).Ok?
    ensures match TurnOf(m, records).value
            case Asked(next, _) => Shrinks(m, next)
            case Advancing(_, w, _) => PhaseRank(m) == 1 || (PhaseRank(m) == 0 && w.remaining == HopsLeft(m))
  {
    hide PushRrset, HasData, TrimTo;
  }

  /** Run a machine to its end against a resolver; the measure shows there is one, whatever the resolver says. */
  function Drive(resolver: (Machine, Question) -> seq<Record>, m: Machine, q: Question): (r: Run)
    ensures !r.Waiting?
    decreases PhaseRank(m), HopsLeft(m), LabelsLeft(m)
  {
    var next := After(Answer(m, resolver(m, q)));
    if next.Waiting? then
      AnswerShrinks(m, resolver(m, q));
      Drive(resolver, next.machine, next.question)
    else next
  }

  // ----- how many questions -----

  /** No CNAME target in these records has more than `max` labels. */
  ghost predicate TargetsWithin(records: seq<Record>, max: nat) {
    forall r | r in records && r.rtype == CNAME && ParseCname(r.rdata).Some? :: |ParseCname(r.rdata).value| <= max
  }

  ghost predicate NamesWithin(m: Machine, max: nat) {
    match m.phase
    case RootKeysPhase(owner) => |owner| <= max
    case AtLeaf(owner) => |owner| <= max
    case Descending(d) =>
      && |d.name| <= max && 1 <= d.depth <= |d.name|
      && (match d.resume
          case ToLeaf(owner) => |owner| <= max
          case ToWalk(w) => TargetsWithin(w.answers, max) && w.remaining <= MAX_CNAME_HOPS)
  }

  /** Questions the machine can still ask after the one outstanding. */
  function Budget(m: Machine, max: nat): nat {
    match m.phase
    case RootKeysPhase(_) => 20 * max + 1
    case AtLeaf(_) => 18 * max
    case Descending(d) =>
      LeftInDescent(d) + (match d.resume case ToLeaf(_) => 18 * max + 1 case ToWalk(w) => w.remaining * (2 * max))
  }

  lemma {:induction false} BudgetOfHop(remaining: nat, left: nat, max: nat, name: nat)
    requires left < remaining <= MAX_CNAME_HOPS + 1 && 1 <= name <= max
    ensures 2 * (name - 1) + 1 + left * (2 * max) < remaining * (2 * max)
  {
    assert (left + 1) * (2 * max) <= remaining * (2 * max);
    assert (left + 1) * (2 * max) == left * (2 * max) + 2 * max;
  }

  lemma AnswerSpends(m: Machine, records: seq<Record>, max: nat)
    requires NamesWithin(m, max) && TargetsWithin(records, max)
    requires Answer(m, records).Ok? && Answer(m, records).value.Ask?
    ensures var next := Answer(m, records).value.machine; NamesWithin(next, max) && Budget(next, max) < Budget(m, max)
  {
    hide PushRrset, HasData, Advance, ParseCname;
    var turn := TurnOf(m, records).value;
    if turn.Advancing? {
      AdvanceAsks(turn.framed, turn.walk, turn.zone);
      var d := Advance(turn.framed, turn.walk, turn.zone).value.machine.phase.descent;
      assert |d.name| <= max;
      var left := d.resume.walk.remaining;
      BudgetOfHop(turn.walk.remaining, left, max, |d.name|);
      BudgetOfHop(left + 1, left, max, d.depth);
      assert LeftInDescent(d) <= 2 * (|d.name| - 1) + 1;
    }
  }

  lemma {:induction false} FeedSpends(r: Run, answers: seq<seq<Record>>, max: nat)
    requires r.Waiting? && NamesWithin(r.machine, max)
    requires forall a | a in answers :: TargetsWithin(a, max)
    requires Feed(r, answers).Waiting?
    ensures |answers| <= Budget(r.machine, max)
    decreases |answers|
  {
    hide Answer, NamesWithin, TargetsWithin, Budget;
    if answers != [] {
      assert answers[0] in answers;
      var next := After(Answer(r.machine, answers[0]));
      assert next.Waiting?;
      AnswerSpends(r.machine, answers[0], max);
      FeedSpends(next, answers[1..], max);
    }
  }

  /** For names of at most `max` labels, no run asks more than 2 + 20 * max questions. */
  lemma QuestionsBounded(owner: Name, answers: seq<seq<Record>>, max: nat)
    requires |owner| <= max && forall a | a in answers :: TargetsWithin(a, max)
    requires Feed(Begin(owner), answers).Waiting?
    ensures |answers| + 1 <= 2 + 20 * max
  {
    FeedSpends(Begin(owner), answers, max);
  }
}
