/**
 CNAMEs to the root name, where the builder and the validator part: runs of the builder against
 one-record answers, and what a validator makes of the links.
 */
module RootTargets {
  import opened Wrappers
  import opened Wire
  import opened Names
  import opened Records
  import opened Links
  import opened Validator
  import opened Builder
  import opened BuilderRuns
  import opened Agreement
  import opened Worlds
  import opened OneRecordLinks
  import Completeness

  // ----- a CNAME to the root, from a zone below it -----

  /** `_onomancy.com`, and what a resolver answers on the way to a CNAME there whose target is the root. */
  const BELOW_COM: Name := [SERVICE_LABEL, COM]

  function RootAlias(): seq<Record> {
    Pair(BELOW_COM, CNAME, WriteName(ROOT), [COM]) + Pair(ROOT, TXT, [0], ROOT)
  }

  function Answers(): (answers: seq<seq<Record>>)
    ensures |answers| == 5 && answers[4] == RootAlias()
  {
    [Pair(ROOT, DNSKEY, KEY_RDATA, ROOT), Pair([COM], DS, DS_RDATA, ROOT), Pair([COM], DNSKEY, KEY_RDATA, [COM]), [],
     RootAlias()]
  }

  function Grown(f: Framed, frame: Bytes): Framed {
    Framed(f.links + [frame], f.bytes + |frame|)
  }

  /** Pushing a one-record RRset, while the chain is short. */
  lemma {:induction false} PushSigned(f: Framed, answers: seq<Record>, owner: Name, rtype: nat, rdata: Bytes,
                                      signer: Name)
    requires Writable([Data(owner, rtype, rdata)], owner, rtype, |owner|, signer) && f.bytes <= 20000
    requires DataOf(answers, owner, rtype) == [Pair(owner, rtype, rdata, signer)[0]]
    requires SignaturesOf(answers, owner, rtype) == [Pair(owner, rtype, rdata, signer)[1]]
    ensures var frame := SignedFrame([Data(owner, rtype, rdata)], owner, rtype, |owner|, signer);
            |frame| <= 3900 && PushRrset(f, answers, owner, rtype) == Ok(Grown(f, frame))
  {
    hide WriteRecords, SigRdata, ValidName, DataOf, SignaturesOf, ParseLink, SignedLink;
    FrameReads([Data(owner, rtype, rdata)], owner, rtype, |owner|, signer);
    assert [Pair(owner, rtype, rdata, signer)[0]] + [Pair(owner, rtype, rdata, signer)[1]]
        == [Data(owner, rtype, rdata)] + [SigRecord(owner, rtype, |owner|, signer)];
  }

  lemma {:induction false} PushPair(f: Framed, owner: Name, rtype: nat, rdata: Bytes, signer: Name)
    requires Writable([Data(owner, rtype, rdata)], owner, rtype, |owner|, signer) && f.bytes <= 20000
    ensures var frame := SignedFrame([Data(owner, rtype, rdata)], owner, rtype, |owner|, signer);
            |frame| <= 3900 && PushRrset(f, Pair(owner, rtype, rdata, signer), owner, rtype) == Ok(Grown(f, frame))
    ensures ValidAnswers(Pair(owner, rtype, rdata, signer)) && HasData(Pair(owner, rtype, rdata, signer), owner, rtype)
  {
    hide WriteRecords, SigRdata, ValidName, DataOf, SignaturesOf, PushRrset, ValidAnswers;
    assert Data(owner, rtype, rdata) in [Data(owner, rtype, rdata)];
    PairParts(owner, rtype, rdata, signer);
    PushSigned(f, Pair(owner, rtype, rdata, signer), owner, rtype, rdata, signer);
    var first := Pair(owner, rtype, rdata, signer)[0];
    assert first in Pair(owner, rtype, rdata, signer) && IsData(first, owner, rtype);
  }

  /** What is framed before the leaf answer, and after the CNAME in it. */
  function BeforeAlias(): Framed {
    Grown(Grown(Grown(Framed([], 0), KeyFrame(ROOT)), DsFrame(ROOT, [COM])), KeyFrame([COM]))
  }

  function AfterAlias(): Framed {
    Grown(BeforeAlias(), CnameFrame([COM], BELOW_COM, ROOT, 2))
  }

  lemma BelowCom()
    ensures ValidName([COM]) && ValidName(BELOW_COM) && ValidName(ROOT)
    ensures TrimTo(BELOW_COM, 1) == [COM] && TrimTo(BELOW_COM, 2) == BELOW_COM
  {
    OwnersOf();
  }

  lemma ShortSoFar()
    ensures |KeyFrame(ROOT)| <= 3900 && |DsFrame(ROOT, [COM])| <= 3900 && |KeyFrame([COM])| <= 3900
    ensures BeforeAlias().bytes <= 11700
  {
    hide SignedFrame, ValidName;
    BelowCom();
    FrameReads([Data(ROOT, DNSKEY, KEY_RDATA)], ROOT, DNSKEY, 0, ROOT);
    FrameReads([Data([COM], DS, DS_RDATA)], [COM], DS, 1, ROOT);
    FrameReads([Data([COM], DNSKEY, KEY_RDATA)], [COM], DNSKEY, 1, [COM]);
  }

  /** The machine after each of the first four answers. */
  function Reached(i: nat): Machine {
    var one := Grown(Framed([], 0), KeyFrame(ROOT));
    var two := Grown(one, DsFrame(ROOT, [COM]));
    var leaf := ToLeaf(BELOW_COM);
    if i == 0 then Machine(Framed([], 0), ROOT, RootKeysPhase(BELOW_COM))
    else if i == 1 then Suspend(Descent(BELOW_COM, 1, AwaitDs, ROOT, leaf), one)
    else if i == 2 then Suspend(Descent(BELOW_COM, 1, AwaitKeys, ROOT, leaf), two)
    else if i == 3 then Suspend(Descent(BELOW_COM, 2, AwaitDs, [COM], leaf), BeforeAlias())
    else Machine(BeforeAlias(), [COM], AtLeaf(BELOW_COM))
  }

  function Asking(i: nat): Question {
    if i == 0 then Question(ROOT, DNSKEY)
    else if i == 1 then Question([COM], DS)
    else if i == 2 then Question([COM], DNSKEY)
    else if i == 3 then Question(BELOW_COM, DS)
    else Question(BELOW_COM, TXT)
  }

  /** Each of the first four answers takes the machine one further. */
  lemma {:induction false} NextReached(i: nat)
    requires i < 4
    ensures TurnOf(Reached(i), Answers()[i]) == Ok(Asked(Reached(i + 1), Asking(i + 1)))
    ensures GoodAnswers(true, Answers()[i])
  {
    hide SignedFrame, ValidName, PushRrset, ValidAnswers, WriteName, SigRdata;
    BelowCom();
    ShortSoFar();
    PushPair(Reached(0).framed, ROOT, DNSKEY, KEY_RDATA, ROOT);
    PushPair(Reached(1).framed, [COM], DS, DS_RDATA, ROOT);
    PushPair(Reached(2).framed, [COM], DNSKEY, KEY_RDATA, [COM]);
    assert ValidAnswers([]) by { NothingToCheck(); }
  }

  lemma NothingToCheck()
    ensures ValidAnswers([])
  {
  }

  /** The builder reaches the leaf below the cut `com`, and frames nothing at a target before. */
  lemma {:induction false} ReachesLeaf(i: nat, answers: seq<seq<Record>>)
    requires i <= 4 && answers == Answers()[i..]
    ensures RunHeads(Waiting(Reached(i), Asking(i)), answers)
            == RunHeads(Waiting(Reached(4), Asking(4)), [RootAlias()])
    ensures Feed(Waiting(Reached(i), Asking(i)), answers)
            == Feed(Waiting(Reached(4), Asking(4)), [RootAlias()])
    decreases 4 - i
  {
    hide TurnOf, Reached, Asking, RootAlias, Pair;
    if i < 4 {
      NextReached(i);
      assert answers[0] == Answers()[i] && answers[1..] == Answers()[i + 1..];
      ReachesLeaf(i + 1, answers[1..]);
    }
  }

  /** What the leaf answer holds: a CNAME below `com` to the root, and a TXT RRset at the root. */
  lemma {:induction false} AliasParts()
    ensures ValidAnswers(RootAlias())
    ensures !HasData(RootAlias(), BELOW_COM, TXT) && HasData(RootAlias(), ROOT, TXT)
    ensures FindCname(RootAlias(), BELOW_COM) == Some(ROOT)
    ensures PushRrset(BeforeAlias(), RootAlias(), BELOW_COM, CNAME) == Ok(AfterAlias())
  {
    hide SignedFrame, ValidName, ValidAnswers, WriteName, SigRdata, DataOf, SignaturesOf, PushRrset, FindCname;
    BelowCom();
    ShortSoFar();
    WireLenBounded(ROOT);
    LeafParts(BELOW_COM, ROOT, [COM], ROOT);
    PushSigned(BeforeAlias(), RootAlias(), BELOW_COM, CNAME, WriteName(ROOT), [COM]);
    NamePrefix(ROOT, []);
    assert WriteName(ROOT) + [] == WriteName(ROOT);
    assert ParseCname(WriteName(ROOT)) == Some(ROOT);
    FirstTarget(RootAlias(), BELOW_COM);
    var leaf := Pair(ROOT, TXT, [0], ROOT)[0];
    assert leaf in RootAlias() && IsData(leaf, ROOT, TXT);
  }

  /** A validator of these links is at the root after the CNAME. */
  lemma {:induction false} ValidatorAtRoot()
    ensures Standing(Credulous(), BELOW_COM, BeforeAlias().links) == Some(Progress(At([COM]), BELOW_COM, None, 0))
    ensures Standing(Credulous(), BELOW_COM, AfterAlias().links) == Some(Progress(At(ROOT), ROOT, None, 1))
  {
    hide ParseLink, ParseLinks, ValidName, EnterAnchored, TakeLink, SignedFrame, Credulous;
    BelowCom();
    FramesRead(ROOT, [COM], [COM], 1);
    FramesRead([COM], BELOW_COM, ROOT, 2);
    var links := [KeyLink(ROOT), DsLink(ROOT, [COM]), KeyLink([COM])];
    ParsesTo(BeforeAlias().links, links);
    RootEntered();
    Delegated(ROOT, [COM], BELOW_COM, 0);
    Crossed(ROOT, [COM], BELOW_COM, 0);
    var start := Progress(At(ROOT), BELOW_COM, None, 0);
    assert links[1..] == [links[1], links[2]] && [links[1], links[2]][1..] == [links[2]] && [links[2]][1..] == [];
    assert Replay(Credulous(), start.(walk := At([COM])), []) == Some(start.(walk := At([COM])));
    assert Replay(Credulous(), start.(pending := Some(Pending([COM], [THE_DS]))), [links[2]])
        == Some(start.(walk := At([COM])));
    Aliased([COM], BELOW_COM, ROOT, 2, 0);
    Completeness.StandingMore(Credulous(), BELOW_COM, BeforeAlias().links, CnameFrame([COM], BELOW_COM, ROOT, 2));
  }

  lemma BeginsReached()
    ensures Begin(BELOW_COM) == Waiting(Reached(0), Asking(0))
  {
  }

  lemma AnswersAreValid()
    ensures forall a | a in Answers() :: ValidAnswers(a)
  {
    hide ValidAnswers, Answers, NoRootTargets;
    AliasParts();
    forall i | 0 <= i < 5 ensures ValidAnswers(Answers()[i]) {
      if i < 4 { NextReached(i); }
    }
  }

  lemma {:induction false} LeafHeads()
    ensures RunHeads(Waiting(Reached(4), Asking(4)), [RootAlias()])
            == [Head(BeforeAlias(), [COM], BELOW_COM), Head(AfterAlias(), [COM], ROOT)]
  {
    hide ValidAnswers, HasData, FindCname, PushRrset, AfterAlias, BeforeAlias, RootAlias, Builder.Answer, Asking;
    AliasParts();
    var walk := LeafWalk(RootAlias(), BELOW_COM, MAX_CNAME_HOPS + 1);
    assert AdvanceHeads(AfterAlias(), LeafWalk(RootAlias(), ROOT, MAX_CNAME_HOPS), [COM])
        == [Head(AfterAlias(), [COM], ROOT)];
    assert AdvanceHeads(BeforeAlias(), walk, [COM])
        == [Head(BeforeAlias(), [COM], BELOW_COM)] + [Head(AfterAlias(), [COM], ROOT)];
    assert AnswerHeads(Reached(4), RootAlias()) == AdvanceHeads(BeforeAlias(), walk, [COM]);
    assert [RootAlias()][1..] == [] && [RootAlias()][0] == RootAlias();
  }

  /**
   A run that parts the two machines: the builder, fed these answers for `_onomancy.com`, frames a
   link at the root while it still counts itself in `com`; a validator of its links is at the root.
   */
  lemma {:induction false} RootTargetRun()
    ensures OnomancyOwner(COM) == Some(BELOW_COM) && forall a | a in Answers() :: ValidAnswers(a)
    ensures RunHeads(Begin(BELOW_COM), Answers())
            == [Head(BeforeAlias(), [COM], BELOW_COM), Head(AfterAlias(), [COM], ROOT)]
    ensures Standing(Credulous(), BELOW_COM, AfterAlias().links) == Some(Progress(At(ROOT), ROOT, None, 1))
    ensures !StandTogether(Head(AfterAlias(), [COM], ROOT), BELOW_COM)
  {
    hide ValidAnswers, Answers, RunHeads, Standing, AfterAlias, BeforeAlias, Reached, Asking;
    OwnersOf();
    AnswersAreValid();
    ValidatorAtRoot();
    assert Answers()[0..] == Answers();
    ReachesLeaf(0, Answers());
    BeginsReached();
    LeafHeads();
  }

  lemma {:induction false} ReachesLeafOnCourse()
    ensures OnCourse(true, BeforeAlias(), BELOW_COM, [COM], BELOW_COM, None, 0)
  {
    hide TurnOf, OnCourse, GoodAnswers, BeforeAlias, DescentOnCourse, Pair, Answers;
    NextReached(0);
    NextReached(1);
    NextReached(2);
    NextReached(3);
    AnswerOnCourse(true, Reached(0), BELOW_COM, Answers()[0]);
    AnswerOnCourse(true, Reached(1), BELOW_COM, Answers()[1]);
    AnswerOnCourse(true, Reached(2), BELOW_COM, Answers()[2]);
    AnswerOnCourse(true, Reached(3), BELOW_COM, Answers()[3]);
  }

  /** The hypotheses of `HopAgreesExactly` are met on that run, with the root as target and another zone. */
  lemma {:induction false} RootTargetHop()
    ensures var w := LeafWalk(RootAlias(), BELOW_COM, MAX_CNAME_HOPS + 1);
            && OnCourse(true, BeforeAlias(), BELOW_COM, [COM], w.current, None, MAX_CNAME_HOPS + 1 - w.remaining)
            && ValidAnswers(w.answers) && FindCname(w.answers, w.current) == Some(ROOT)
            && PushRrset(BeforeAlias(), w.answers, w.current, CNAME) == Ok(AfterAlias())
            && Standing(Credulous(), BELOW_COM, AfterAlias().links).Some?
            && Standing(Credulous(), BELOW_COM, AfterAlias().links).value.walk.zone != ZoneAfterHop([COM], ROOT)
  {
    hide ValidAnswers, Pair, HasData, FindCname, PushRrset, Standing, AfterAlias, BeforeAlias, RootAlias, OnCourse;
    hide Feed, NoRootTargets, GoodAnswers;
    AliasParts();
    ValidatorAtRoot();
    ReachesLeafOnCourse();
  }

  // ----- and back into the zone left behind -----

  const E_COM: Name := [E, COM]

  /** A CNAME from below `com` to the root, another from there to `e.com`, and a TXT RRset that `com` signs. */
  function RootDetour(): seq<Record> {
    Pair(BELOW_COM, CNAME, WriteName(ROOT), [COM]) + Pair(ROOT, CNAME, WriteName(E_COM), ROOT)
    + Pair(E_COM, TXT, [0], [COM])
  }

  lemma DetourNames()
    ensures ValidName(E_COM) && E_COM != ROOT && E_COM != BELOW_COM && BELOW_COM != ROOT
    ensures IsAncestorOrSelf([COM], E_COM) && TrimTo(E_COM, 2) == E_COM
  {
    LongerName(COM, []);
    LongerName(E, [COM]);
    assert [COM] + [] == [COM] && [E] + [COM] == E_COM;
    assert E_COM[0] == E && BELOW_COM[0] == SERVICE_LABEL && |E| != |SERVICE_LABEL|;
  }

  /** Three one-record RRsets side by side. */
  lemma {:induction false} ThreePairs(a: seq<Record>, b: seq<Record>, c: seq<Record>, owner: Name, rtype: nat)
    ensures DataOf(a + b + c, owner, rtype)
            == DataOf(a, owner, rtype) + DataOf(b, owner, rtype) + DataOf(c, owner, rtype)
    ensures SignaturesOf(a + b + c, owner, rtype)
            == SignaturesOf(a, owner, rtype) + SignaturesOf(b, owner, rtype) + SignaturesOf(c, owner, rtype)
  {
    hide DataOf, SignaturesOf;
    DataAppend(a + b, c, owner, rtype);
    DataAppend(a, b, owner, rtype);
    SignaturesAppend(a + b, c, owner, rtype);
    SignaturesAppend(a, b, owner, rtype);
  }

  /** What the leaf answer holds at one owner and type. */
  lemma {:induction false} DetourAt(owner: Name, rtype: nat)
    requires rtype != RRSIG
    ensures DataOf(RootDetour(), owner, rtype)
            == (if owner == BELOW_COM && rtype == CNAME
                then [Pair(BELOW_COM, CNAME, WriteName(ROOT), [COM])[0]] else [])
               + (if owner == ROOT && rtype == CNAME then [Pair(ROOT, CNAME, WriteName(E_COM), ROOT)[0]] else [])
               + (if owner == E_COM && rtype == TXT then [Pair(E_COM, TXT, [0], [COM])[0]] else [])
    ensures SignaturesOf(RootDetour(), owner, rtype)
            == (if owner == BELOW_COM && rtype == CNAME
                then [Pair(BELOW_COM, CNAME, WriteName(ROOT), [COM])[1]] else [])
               + (if owner == ROOT && rtype == CNAME then [Pair(ROOT, CNAME, WriteName(E_COM), ROOT)[1]] else [])
               + (if owner == E_COM && rtype == TXT then [Pair(E_COM, TXT, [0], [COM])[1]] else [])
    ensures ValidAnswers(RootDetour())
  {
    hide ValidName, SigRdata, DataOf, SignaturesOf, WriteName, ValidRecord;
    BelowCom();
    DetourNames();
    WireLenBounded(ROOT);
    WireLenBounded(E_COM);
    PairParts(BELOW_COM, CNAME, WriteName(ROOT), [COM]);
    PairParts(ROOT, CNAME, WriteName(E_COM), ROOT);
    PairParts(E_COM, TXT, [0], [COM]);
    ThreePairs(Pair(BELOW_COM, CNAME, WriteName(ROOT), [COM]), Pair(ROOT, CNAME, WriteName(E_COM), ROOT),
               Pair(E_COM, TXT, [0], [COM]), owner, rtype);
  }

  lemma {:induction false} DetourParts()
    ensures ValidAnswers(RootDetour())
    ensures !HasData(RootDetour(), BELOW_COM, TXT) && !HasData(RootDetour(), ROOT, TXT)
    ensures HasData(RootDetour(), E_COM, TXT)
    ensures DataOf(RootDetour(), BELOW_COM, CNAME) == [Pair(BELOW_COM, CNAME, WriteName(ROOT), [COM])[0]]
    ensures SignaturesOf(RootDetour(), BELOW_COM, CNAME) == [Pair(BELOW_COM, CNAME, WriteName(ROOT), [COM])[1]]
    ensures DataOf(RootDetour(), ROOT, CNAME) == [Pair(ROOT, CNAME, WriteName(E_COM), ROOT)[0]]
    ensures SignaturesOf(RootDetour(), ROOT, CNAME) == [Pair(ROOT, CNAME, WriteName(E_COM), ROOT)[1]]
    ensures DataOf(RootDetour(), E_COM, TXT) == [Pair(E_COM, TXT, [0], [COM])[0]]
    ensures SignaturesOf(RootDetour(), E_COM, TXT) == [Pair(E_COM, TXT, [0], [COM])[1]]
  {
    hide ValidName, SigRdata, DataOf, SignaturesOf, WriteName, RootDetour, HasData, Pair, ValidAnswers;
    DetourNames();
    DetourAt(BELOW_COM, CNAME);
    DetourAt(ROOT, CNAME);
    DetourAt(E_COM, TXT);
    DetourAt(BELOW_COM, TXT);
    DetourAt(ROOT, TXT);
    NoneFound(RootDetour(), BELOW_COM, TXT);
    NoneFound(RootDetour(), ROOT, TXT);
    NoneFound(RootDetour(), E_COM, TXT);
  }

  lemma NoneFound(answers: seq<Record>, owner: Name, rtype: nat)
    ensures HasData(answers, owner, rtype) <==> DataOf(answers, owner, rtype) != []
  {
    if r :| r in answers && IsData(r, owner, rtype) {
      assert r in DataOf(answers, owner, rtype);
    }
    if DataOf(answers, owner, rtype) != [] {
      assert DataOf(answers, owner, rtype)[0] in answers;
    }
  }

  /** The links of the chain finished on that detour. */
  function AfterDetour(): Framed {
    Grown(AfterAlias(), CnameFrame(ROOT, ROOT, E_COM, 0))
  }

  function DetourChain(): seq<Bytes> {
    AfterDetour().links + [TxtFrame([COM], E_COM)]
  }

  /** Whatever follows them, the first four answers bring the machine to the leaf. */
  lemma {:induction false} FedToLeaf(i: nat, answers: seq<seq<Record>>)
    requires i <= 4 && |answers| >= 4 - i && answers[..4 - i] == Answers()[i..4]
    ensures Feed(Waiting(Reached(i), Asking(i)), answers) == Feed(Waiting(Reached(4), Asking(4)), answers[4 - i..])
    decreases 4 - i
  {
    hide TurnOf, Reached, Asking, RootAlias, Pair;
    if i < 4 {
      NextReached(i);
      assert answers[0] == answers[..4 - i][0] == Answers()[i];
      assert answers[1..][..3 - i] == answers[..4 - i][1..] == Answers()[i + 1..4];
      assert answers[1..][3 - i..] == answers[4 - i..];
      FedToLeaf(i + 1, answers[1..]);
    } else {
      assert answers[0..] == answers;
    }
  }

  /** Where the builder waits for a DS answer at `e.com`, with `com` as its deepest cut. */
  function Probing(): Machine {
    var next := ToWalk(LeafWalk(RootDetour(), E_COM, MAX_CNAME_HOPS - 1));
    Suspend(Descent(E_COM, 2, AwaitDs, [COM], next), AfterDetour())
  }

  lemma {:induction false} DetourPushes()
    ensures FindCname(RootDetour(), BELOW_COM) == Some(ROOT) && FindCname(RootDetour(), ROOT) == Some(E_COM)
    ensures PushRrset(BeforeAlias(), RootDetour(), BELOW_COM, CNAME) == Ok(AfterAlias())
    ensures PushRrset(AfterAlias(), RootDetour(), ROOT, CNAME) == Ok(AfterDetour())
    ensures PushRrset(AfterDetour(), RootDetour(), E_COM, TXT).Ok?
    ensures PushRrset(AfterDetour(), RootDetour(), E_COM, TXT).value.links == DetourChain()
  {
    hide SignedFrame, ValidName, ValidAnswers, WriteName, SigRdata, DataOf, SignaturesOf, PushRrset, FindCname,
         RootDetour;
    BelowCom();
    DetourNames();
    DetourParts();
    ShortSoFar();
    WireLenBounded(ROOT);
    WireLenBounded(E_COM);
    PushSigned(BeforeAlias(), RootDetour(), BELOW_COM, CNAME, WriteName(ROOT), [COM]);
    PushSigned(AfterAlias(), RootDetour(), ROOT, CNAME, WriteName(E_COM), ROOT);
    PushSigned(AfterDetour(), RootDetour(), E_COM, TXT, [0], [COM]);
    TargetParses(ROOT);
    TargetParses(E_COM);
    FirstTarget(RootDetour(), BELOW_COM);
    FirstTarget(RootDetour(), ROOT);
  }

  lemma TargetParses(target: Name)
    requires ValidName(target)
    ensures ParseCname(WriteName(target)) == Some(target)
  {
    hide ReadName, WriteName, ValidName;
    WireLenBounded(target);
    NamePrefix(target, []);
    assert WriteName(target) + [] == WriteName(target);
  }

  lemma DetourZones()
    ensures HopFrom([COM], ROOT) == (1, ROOT) && HopFrom([COM], E_COM) == (2, [COM])
  {
    DetourNames();
  }

  lemma DetourData()
    ensures !HasData(RootDetour(), BELOW_COM, TXT) && !HasData(RootDetour(), ROOT, TXT)
    ensures HasData(RootDetour(), E_COM, TXT)
  {
    hide RootDetour, HasData, Pair, ValidAnswers;
    DetourParts();
  }

  lemma {:induction false} ProbeAsked(f: Framed, next: LeafWalk)
    ensures HopDescent(f, E_COM, [COM], next)
            == Ask(Suspend(Descent(E_COM, 2, AwaitDs, [COM], ToWalk(next)), f), Question(E_COM, DS))
  {
    hide HopFrom, TrimTo;
    DetourZones();
    DetourNames();
  }

  /** From the alias to the root, and from there to a probe at `e.com`. */
  lemma {:induction false} DetourProbes()
    ensures Advance(BeforeAlias(), LeafWalk(RootDetour(), BELOW_COM, MAX_CNAME_HOPS + 1), [COM])
            == Ok(Ask(Probing(), Question(E_COM, DS)))
  {
    hide HasData, FindCname, PushRrset, AfterAlias, BeforeAlias, AfterDetour, RootDetour, HopFrom, HopDescent, Advance;
    DetourData();
    DetourPushes();
    DetourZones();
    var first := LeafWalk(RootDetour(), BELOW_COM, MAX_CNAME_HOPS + 1);
    var second := LeafWalk(RootDetour(), ROOT, MAX_CNAME_HOPS);
    ProbeAsked(AfterDetour(), LeafWalk(RootDetour(), E_COM, MAX_CNAME_HOPS - 1));
    Completeness.AdvanceHop(AfterAlias(), second, [COM], E_COM);
    Completeness.AdvanceHop(BeforeAlias(), first, [COM], ROOT);
  }

  /** The builder takes the detour and finishes a chain. */
  lemma {:induction false} DetourFinishes()
    ensures Builder.Answer(Reached(4), RootDetour()) == Ok(Ask(Probing(), Question(E_COM, DS)))
    ensures Builder.Answer(Probing(), []) == Ok(Done(DetourChain()))
  {
    hide HasData, FindCname, PushRrset, AfterAlias, BeforeAlias, AfterDetour, RootDetour, HopFrom, DetourChain;
    DetourNames();
    DetourData();
    DetourPushes();
    DetourProbes();
    NoData(E_COM);
  }

  lemma {:induction false} DetourFed()
    ensures Feed(Waiting(Reached(4), Asking(4)), [RootDetour(), []]) == Completed(DetourChain())
  {
    hide Builder.Answer, Reached, Asking, RootDetour, Probing, DetourChain;
    DetourFinishes();
    assert [RootDetour(), []][1..] == [[]];
    assert Feed(Waiting(Probing(), Question(E_COM, DS)), [[]]) == Completed(DetourChain());
  }

  lemma NoData(name: Name)
    ensures !HasData([], name, DS)
  {
  }

  /** A chain whose last link the validator refuses is refused with that error. */
  lemma {:induction false} StandingRefuses(j: Judge, hostname: Bytes, frames: seq<Bytes>, b: Bytes)
    requires OnomancyOwner(hostname).Some? && Standing(j, OnomancyOwner(hostname).value, frames).Some?
    requires ParseLink(b).Ok?
    requires TakeLink(j, Standing(j, OnomancyOwner(hostname).value, frames).value, ParseLink(b).value).Err?
    ensures var p := Standing(j, OnomancyOwner(hostname).value, frames).value;
            Validate(j, hostname, frames + [b]) == Err(TakeLink(j, p, ParseLink(b).value).error)
  {
    hide ParseLinks, ParseLink, TakeLink, Replay, EnterAnchored, OnomancyOwner;
    Completeness.ParseMore(frames, b);
    var links, link := ParseLinks(frames).value, ParseLink(b).value;
    var p := Progress(EnterAnchored(j, links[0]).value, OnomancyOwner(hostname).value, None, 0);
    assert (links + [link])[1..] == links[1..] + [link];
    ReplayIsTheWalk(j, p, links[1..], [link]);
  }

  /** Signed by `com` where the walk is at the root. */
  lemma {:induction false} WrongSigner(p: Progress, owner: Name)
    requires p.walk.zone == ROOT && p.target == owner && p.pending.None?
    ensures TakeLink(Credulous(), p, TxtLink([COM], owner)) == Err(SignerMismatch)
  {
    hide SigRdata;
    var link := TxtLink([COM], owner);
    var sigs := link.signatures;
    assert sigs[0].signer == [COM] && |sigs[0].signer| == 1 && sigs[1..] == [];
    assert TrySignatures(Credulous().crypto, p.walk.zone, p.walk.keys, link, sigs, NoUsableSignature)
        == Err(SignerMismatch);
  }

  lemma {:induction false} DetourRefused()
    ensures Validate(Credulous(), COM, DetourChain()) == Err(SignerMismatch)
  {
    hide Validate, Standing, ParseLink, ValidName, AfterAlias, SignedFrame, TakeLink, OnomancyOwner, Credulous;
    OwnersOf();
    BelowCom();
    DetourNames();
    ValidatorAtRoot();
    FramesRead(ROOT, ROOT, E_COM, 0);
    FramesRead([COM], E_COM, E_COM, 2);
    RootIsAbove(E_COM);
    Aliased(ROOT, ROOT, E_COM, 0, 1);
    Completeness.StandingMore(Credulous(), BELOW_COM, AfterAlias().links, CnameFrame(ROOT, ROOT, E_COM, 0));
    WrongSigner(Progress(At(ROOT), E_COM, None, 2), E_COM);
    StandingRefuses(Credulous(), COM, AfterDetour().links, TxtFrame([COM], E_COM));
  }

  /**
   Past the root and back into the zone left behind, the two machines cannot agree: fed these
   answers, each signed by the zone it lies in, the builder finishes a chain that the validator
   refuses for its signer. It is what `Completeness.LeavesRoot` keeps out of the end-to-end theorem.
   */
  lemma {:induction false} RootTargetRefused()
    ensures OnomancyOwner(COM) == Some(BELOW_COM)
    ensures forall a | a in Answers()[..4] + [RootDetour(), []] :: ValidAnswers(a)
    ensures Feed(Begin(BELOW_COM), Answers()[..4] + [RootDetour(), []]) == Completed(DetourChain())
    ensures Validate(Credulous(), COM, DetourChain()) == Err(SignerMismatch)
  {
    hide ValidAnswers, Validate, RootDetour, OnomancyOwner, Reached, Asking, Answers, DetourChain, Feed, HasData, Pair;
    OwnersOf();
    DetourParts();
    DetourFed();
    AnswersAreValid();
    NothingToCheck();
    var answers := Answers()[..4] + [RootDetour(), []];
    forall a | a in answers ensures ValidAnswers(a) {
      assert a in Answers() || a == RootDetour() || a == [];
    }
    BeginsReached();
    FedToLeaf(0, answers);
    assert answers[4..] == [RootDetour(), []];
    DetourRefused();
  }
}
