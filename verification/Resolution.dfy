/**
 The greedy namestore walk (onomancy_protocol/src/resolve.rs). The two trait seams it reads
 through are functions: `reference` answers for a namestore and a path, `replica` for a document.
 */
module Resolution {
  import opened Wrappers
  import opened Wire
  import opened Anchors
  import opened Segments

  /** Weakest first. */
  datatype Authority = TrustedSubstrate | CarriageVerified

  function Weaker(a: Authority, b: Authority): Authority {
    if a.TrustedSubstrate? then a else b
  }

  datatype Vouched<+N> = Vouched(namestore: N, authority: Authority)

  datatype Reason = DanglingSegment | UnsyncedTarget(target: Doc)

  datatype Outcome<+N> = Resolved(target: N, authority: Authority) | Partial(consumed: nat, reason: Reason)

  type Reference<!N> = (N, Path) -> Option<Doc>
  type Replicas<!N> = Doc -> Option<Vouched<N>>

  // ----- one hop -----

  /** The first match among the prefixes of length `n`, `n - 1`, …, 1. */
  function FindMatch<N>(reference: Reference<N>, current: N, remaining: Path, n: nat): Option<(nat, Doc)>
    requires n <= |remaining|
  {
    if n == 0 then None
    else match reference(current, remaining[..n])
         case Some(target) => Some((n, target))
         case None => FindMatch(reference, current, remaining, n - 1)
  }

  /** `n` segments are the longest non-empty prefix that is a key, and `target` is its value. */
  ghost predicate Longest<N>(reference: Reference<N>, current: N, remaining: Path, n: nat, target: Doc) {
    && 1 <= n <= |remaining| && reference(current, remaining[..n]) == Some(target)
    && forall m | n < m <= |remaining| :: reference(current, remaining[..m]) == None
  }

  ghost predicate NoKey<N>(reference: Reference<N>, current: N, remaining: Path) {
    forall m | 1 <= m <= |remaining| :: reference(current, remaining[..m]) == None
  }

  lemma {:induction false} FindMatchBelow<N>(reference: Reference<N>, current: N, remaining: Path, n: nat)
    requires n <= |remaining|
    requires forall m | n < m <= |remaining| :: reference(current, remaining[..m]) == None
    ensures match FindMatch(reference, current, remaining, n)
            case Some((len, target)) => Longest(reference, current, remaining, len, target)
            case None => NoKey(reference, current, remaining)
    decreases n
  {
    if n > 0 && reference(current, remaining[..n]).None? {
      FindMatchBelow(reference, current, remaining, n - 1);
    }
  }

  lemma {:induction false} LongestIsOne<N>(reference: Reference<N>, current: N, remaining: Path, n: nat, target: Doc,
                                           m: nat, other: Doc)
    requires Longest(reference, current, remaining, n, target) && Longest(reference, current, remaining, m, other)
    ensures n == m && target == other
  {
  }

  lemma {:induction false} LongestIsAKey<N>(reference: Reference<N>, current: N, remaining: Path, n: nat, target: Doc)
    requires Longest(reference, current, remaining, n, target)
    ensures 1 <= n <= |remaining| && reference(current, remaining[..n]) == Some(target)
    ensures !NoKey(reference, current, remaining)
  {
  }

  /** The search finds the longest key exactly. */
  lemma FindMatchIsLongest<N>(reference: Reference<N>, current: N, remaining: Path)
    ensures forall n: nat, target ::
              FindMatch(reference, current, remaining, |remaining|) == Some((n, target)) <==>
              Longest(reference, current, remaining, n, target)
    ensures FindMatch(reference, current, remaining, |remaining|) == None <==> NoKey(reference, current, remaining)
    ensures FindMatch(reference, current, remaining, |remaining|).Some? ==>
              var (n, target) := FindMatch(reference, current, remaining, |remaining|).value;
              1 <= n <= |remaining| && reference(current, remaining[..n]) == Some(target)
  {
    hide FindMatch, Longest, NoKey;
    FindMatchBelow(reference, current, remaining, |remaining|);
    if FindMatch(reference, current, remaining, |remaining|).Some? {
      var (m, other) := FindMatch(reference, current, remaining, |remaining|).value;
      LongestIsAKey(reference, current, remaining, m, other);
    }
    forall n: nat, target | Longest(reference, current, remaining, n, target)
      ensures FindMatch(reference, current, remaining, |remaining|) == Some((n, target))
    {
      LongestIsAKey(reference, current, remaining, n, target);
      var (m, other) := FindMatch(reference, current, remaining, |remaining|).value;
      LongestIsOne(reference, current, remaining, n, target, m, other);
    }
  }

  // ----- the walk -----

  function Walk<N>(reference: Reference<N>, replica: Replicas<N>, current: N, authority: Authority, remaining: Path,
                   consumed: nat): Outcome<N>
    decreases |remaining|
  {
    if remaining == [] then Resolved(current, authority)
    else
      match FindMatch(reference, current, remaining, |remaining|)
      case None => Partial(consumed, DanglingSegment)
      case Some((n, target)) =>
        FindMatchBelow(reference, current, remaining, |remaining|);
        match replica(target)
        case Some(next) =>
          Walk(reference, replica, next.namestore, Weaker(authority, next.authority), remaining[n..], consumed + n)
        case None => Partial(consumed + n, UnsyncedTarget(target))
  }

  function Resolve<N>(reference: Reference<N>, replica: Replicas<N>, root: Vouched<N>, segments: Path): Outcome<N> {
    Walk(reference, replica, root.namestore, root.authority, segments, 0)
  }

  method Search<N>(reference: Reference<N>, current: N, remaining: Path) returns (r: Option<(nat, Doc)>)
    ensures r == FindMatch(reference, current, remaining, |remaining|)
  {
    var n: nat := |remaining|;
    while n > 0
      invariant n <= |remaining|
      invariant FindMatch(reference, current, remaining, |remaining|) == FindMatch(reference, current, remaining, n)
    {
      match reference(current, remaining[..n]) {
        case Some(target) => return Some((n, target));
        case None => n := n - 1;
      }
    }
    return None;
  }

  method ResolveByLoop<N>(reference: Reference<N>, replica: Replicas<N>, root: Vouched<N>, segments: Path)
    returns (r: Outcome<N>)
    ensures r == Resolve(reference, replica, root, segments)
  {
    var current, authority := root.namestore, root.authority;
    var remaining := segments;
    while remaining != []
      invariant |remaining| <= |segments|
      invariant Walk(reference, replica, current, authority, remaining, |segments| - |remaining|)
                == Resolve(reference, replica, root, segments)
      decreases |remaining|
    {
      FindMatchBelow(reference, current, remaining, |remaining|);
      var found := Search(reference, current, remaining);
      match found {
        case None => return Partial(|segments| - |remaining|, DanglingSegment);
        case Some((n, target)) =>
          remaining := remaining[n..];
          match replica(target) {
            case Some(next) =>
              current, authority := next.namestore, Weaker(authority, next.authority);
            case None =>
              return Partial(|segments| - |remaining|, UnsyncedTarget(target));
          }
      }
    }
    return Resolved(current, authority);
  }

  // ----- what the walk means -----

  /** How a walk ends. */
  datatype Ending<+N> = Arrived(namestore: N) | Stuck | Waiting(length: nat, target: Doc)

  /**
   A trail: each hop takes the longest key, from a namestore that is held to one that is held.
   `grade` is the weakest grade of the namestores stood in, the first one's included.
   */
  ghost predicate Trail<N>(reference: Reference<N>, replica: Replicas<N>, current: N, authority: Authority,
                           segments: Path, hops: seq<nat>, grade: Authority, ending: Ending<N>)
    decreases |hops|
  {
    if hops == [] then
      && grade == authority
      && match ending
         case Arrived(namestore) => segments == [] && namestore == current
         case Stuck => segments != [] && NoKey(reference, current, segments)
         case Waiting(n, target) => Longest(reference, current, segments, n, target) && replica(target).None?
    else
      && hops[0] <= |segments| && reference(current, segments[..hops[0]]).Some?
      && (var target := reference(current, segments[..hops[0]]).value;
          && Longest(reference, current, segments, hops[0], target) && replica(target).Some?
          && (var next := replica(target).value;
              Trail(reference, replica, next.namestore, Weaker(authority, next.authority), segments[hops[0]..],
                    hops[1..], grade, ending)))
  }

  function Sum(hops: seq<nat>): nat {
    if hops == [] then 0 else hops[0] + Sum(hops[1..])
  }

  /** The outcome a trail amounts to. */
  function OutcomeOf<N>(hops: seq<nat>, grade: Authority, ending: Ending<N>): Outcome<N> {
    match ending
    case Arrived(namestore) => Resolved(namestore, grade)
    case Stuck => Partial(Sum(hops), DanglingSegment)
    case Waiting(n, target) => Partial(Sum(hops) + n, UnsyncedTarget(target))
  }

  function Shift<N>(r: Outcome<N>, ahead: nat): Outcome<N> {
    match r
    case Resolved(_, _) => r
    case Partial(consumed, reason) => Partial(consumed + ahead, reason)
  }

  /** Every walk follows a trail, with at most one hop a segment, whatever cycles the documents form. */
  lemma {:induction false} WalkHasTrail<N>(reference: Reference<N>, replica: Replicas<N>, current: N,
                                           authority: Authority, segments: Path, consumed: nat)
    returns (hops: seq<nat>, grade: Authority, ending: Ending<N>)
    ensures Trail(reference, replica, current, authority, segments, hops, grade, ending)
    ensures Walk(reference, replica, current, authority, segments, consumed) ==
            Shift(OutcomeOf(hops, grade, ending), consumed)
    ensures |hops| <= Sum(hops) <= |segments|
    decreases |segments|
  {
    hide FindMatch, Longest, NoKey;
    FindMatchIsLongest(reference, current, segments);
    if segments == [] {
      hops, grade, ending := [], authority, Arrived(current);
    } else {
      match FindMatch(reference, current, segments, |segments|) {
        case None => hops, grade, ending := [], authority, Stuck;
        case Some((n, target)) =>
          match replica(target) {
            case None => hops, grade, ending := [], authority, Waiting(n, target);
            case Some(next) =>
              hops, grade, ending := WalkHasTrail(reference, replica, next.namestore,
                                                  Weaker(authority, next.authority), segments[n..], consumed + n);
              var rest := hops;
              hops := [n] + hops;
              assert hops[1..] == rest;
          }
      }
    }
  }

  /** And only that one: a trail determines the walk. */
  lemma {:induction false} TrailIsTheWalk<N>(reference: Reference<N>, replica: Replicas<N>, current: N,
                                             authority: Authority, segments: Path, consumed: nat, hops: seq<nat>,
                                             grade: Authority, ending: Ending<N>)
    requires Trail(reference, replica, current, authority, segments, hops, grade, ending)
    ensures Walk(reference, replica, current, authority, segments, consumed) ==
            Shift(OutcomeOf(hops, grade, ending), consumed)
    decreases |hops|
  {
    hide FindMatch, Longest, NoKey;
    FindMatchIsLongest(reference, current, segments);
    if hops != [] {
      var next := replica(reference(current, segments[..hops[0]]).value).value;
      TrailIsTheWalk(reference, replica, next.namestore, Weaker(authority, next.authority),
                     segments[hops[0]..], consumed + hops[0], hops[1..], grade, ending);
    }
  }

  /** Resolution is the longest-match relation, in at most one hop a segment. */
  lemma {:induction false} ResolveExactly<N(!new)>(reference: Reference<N>, replica: Replicas<N>, root: Vouched<N>,
                                                   segments: Path, r: Outcome<N>)
    ensures Resolve(reference, replica, root, segments) == r <==>
            exists hops, grade, ending ::
              && Trail(reference, replica, root.namestore, root.authority, segments, hops, grade, ending)
              && |hops| <= |segments| && r == OutcomeOf(hops, grade, ending)
  {
    var hops, grade, ending := WalkHasTrail(reference, replica, root.namestore, root.authority, segments, 0);
    if hops', grade', ending' :|
      && Trail(reference, replica, root.namestore, root.authority, segments, hops', grade', ending')
      && |hops'| <= |segments| && r == OutcomeOf(hops', grade', ending') {
      TrailIsTheWalk(reference, replica, root.namestore, root.authority, segments, 0, hops', grade', ending');
    }
  }

  /** At each of the first `n` hops one segment is a key and no longer prefix is. */
  ghost predicate SingleKeys<N>(reference: Reference<N>, replica: Replicas<N>, current: N, segments: Path, n: nat)
    decreases n
  {
    n == 0 ||
    (&& segments != [] && reference(current, segments[..1]).Some?
     && (forall m | 1 < m <= |segments| :: reference(current, segments[..m]) == None)
     && (var crossed := replica(reference(current, segments[..1]).value);
         crossed.Some? && SingleKeys(reference, replica, crossed.value.namestore, segments[1..], n - 1)))
  }

  /** A walk consumes one segment a hop exactly when, at each hop it takes, no longer prefix is a key. */
  lemma {:induction false} OneSegmentHops<N>(reference: Reference<N>, replica: Replicas<N>, current: N,
                                             authority: Authority, segments: Path, hops: seq<nat>, grade: Authority,
                                             ending: Ending<N>)
    requires Trail(reference, replica, current, authority, segments, hops, grade, ending)
    ensures (forall i | 0 <= i < |hops| :: hops[i] == 1) <==>
            SingleKeys(reference, replica, current, segments, |hops|)
    decreases |hops|
  {
    hide NoKey;
    if hops != [] {
      var next := replica(reference(current, segments[..hops[0]]).value).value;
      OneSegmentHops(reference, replica, next.namestore, Weaker(authority, next.authority), segments[hops[0]..],
                     hops[1..], grade, ending);
      assert forall i | 0 < i < |hops| :: hops[i] == hops[1..][i - 1];
      assert (forall i | 0 <= i < |hops| :: hops[i] == 1) <==>
             hops[0] == 1 && forall i | 0 <= i < |hops[1..]| :: hops[1..][i] == 1;
    }
  }

  /** Every namestore a trail enters after the first is carriage-verified. */
  ghost predicate EntersVerified<N>(reference: Reference<N>, replica: Replicas<N>, current: N, segments: Path,
                                    hops: seq<nat>)
    decreases |hops|
  {
    hops == [] ||
    (&& hops[0] <= |segments| && reference(current, segments[..hops[0]]).Some?
     && (var crossed := replica(reference(current, segments[..hops[0]]).value);
         && crossed.Some? && crossed.value.authority.CarriageVerified?
         && EntersVerified(reference, replica, crossed.value.namestore, segments[hops[0]..], hops[1..])))
  }

  /** The reported grade is the weakest link: strong exactly when the start and every namestore entered are. */
  lemma {:induction false} WeakestLink<N>(reference: Reference<N>, replica: Replicas<N>, current: N,
                                          authority: Authority, segments: Path, hops: seq<nat>, grade: Authority,
                                          ending: Ending<N>)
    requires Trail(reference, replica, current, authority, segments, hops, grade, ending)
    ensures grade.CarriageVerified? <==>
            authority.CarriageVerified? && EntersVerified(reference, replica, current, segments, hops)
    decreases |hops|
  {
    hide Longest, NoKey;
    if hops != [] {
      var next := replica(reference(current, segments[..hops[0]]).value).value;
      WeakestLink(reference, replica, next.namestore, Weaker(authority, next.authority),
                  segments[hops[0]..], hops[1..], grade, ending);
    }
  }

  // ----- more replicas -----

  /** `more` holds everything `replica` holds, unchanged. */
  ghost predicate Extends<N>(more: Replicas<N>, replica: Replicas<N>) {
    forall target: Doc | replica(target).Some? :: more(target) == replica(target)
  }

  lemma {:induction false} MoreReplicasFrom<N>(reference: Reference<N>, replica: Replicas<N>, more: Replicas<N>,
                                               current: N, authority: Authority, segments: Path, consumed: nat)
    requires Extends(more, replica)
    ensures var r := Walk(reference, replica, current, authority, segments, consumed);
            (r.Partial? && r.reason.UnsyncedTarget? ==> more(r.reason.target).None?) ==>
              Walk(reference, more, current, authority, segments, consumed) == r
    decreases |segments|
  {
    hide FindMatch, Longest, NoKey;
    FindMatchIsLongest(reference, current, segments);
    if segments != [] {
      match FindMatch(reference, current, segments, |segments|) {
        case None =>
        case Some((n, target)) =>
          match replica(target) {
            case None =>
            case Some(next) =>
              MoreReplicasFrom(reference, replica, more, next.namestore, Weaker(authority, next.authority),
                               segments[n..], consumed + n);
          }
      }
    }
  }

  /** Holding more documents changes only an outcome that was waiting for one of them. */
  lemma {:induction false} MoreReplicas<N>(reference: Reference<N>, replica: Replicas<N>, more: Replicas<N>,
                                           root: Vouched<N>, segments: Path)
    requires Extends(more, replica)
    ensures var r := Resolve(reference, replica, root, segments);
            (r.Partial? && r.reason.UnsyncedTarget? ==> more(r.reason.target).None?) ==>
              Resolve(reference, more, root, segments) == r
  {
    MoreReplicasFrom(reference, replica, more, root.namestore, root.authority, segments, 0);
  }

  /** Lower the grade of an outcome to at most `grade`. */
  function Capped<N>(r: Outcome<N>, grade: Authority): Outcome<N> {
    match r
    case Resolved(target, authority) => Resolved(target, Weaker(grade, authority))
    case Partial(_, _) => r
  }

  /** Starting grade and count pass through a walk untouched. */
  lemma {:induction false} WalkFactors<N>(reference: Reference<N>, replica: Replicas<N>, current: N, grade: Authority,
                                          authority: Authority, segments: Path, consumed: nat, ahead: nat)
    ensures Walk(reference, replica, current, Weaker(grade, authority), segments, consumed + ahead) ==
            Capped(Shift(Walk(reference, replica, current, authority, segments, consumed), ahead), grade)
    decreases |segments|
  {
    hide FindMatch, Longest, NoKey;
    FindMatchIsLongest(reference, current, segments);
    if segments != [] {
      match FindMatch(reference, current, segments, |segments|) {
        case None =>
        case Some((n, target)) =>
          match replica(target) {
            case None =>
            case Some(next) =>
              WalkFactors(reference, replica, next.namestore, grade, Weaker(authority, next.authority),
                          segments[n..], consumed + n, ahead);
          }
      }
    }
  }

  lemma {:induction false} ResumeFrom<N>(reference: Reference<N>, replica: Replicas<N>, more: Replicas<N>, current: N,
                                         authority: Authority, segments: Path, hops: seq<nat>, grade: Authority, n: nat,
                                         target: Doc, consumed: nat)
    requires Extends(more, replica) && more(target).Some?
    requires Trail(reference, replica, current, authority, segments, hops, grade, Waiting(n, target))
    ensures Sum(hops) + n <= |segments|
    ensures var v := more(target).value;
            var k := Sum(hops) + n;
            Walk(reference, more, current, authority, segments, consumed) ==
            Walk(reference, more, v.namestore, Weaker(grade, v.authority), segments[k..], consumed + k)
    decreases |hops|
  {
    hide FindMatch, Longest, NoKey;
    FindMatchIsLongest(reference, current, segments);
    if hops != [] {
      var next := replica(reference(current, segments[..hops[0]]).value).value;
      ResumeFrom(reference, replica, more, next.namestore, Weaker(authority, next.authority),
                 segments[hops[0]..], hops[1..], grade, n, target, consumed + hops[0]);
      var k := Sum(hops[1..]) + n;
      assert segments[hops[0]..][k..] == segments[hops[0] + k..];
    }
  }

  /**
   A walk that stopped for want of a document can be resumed. Once the document is held,
   resolving again equals resolving the remaining segments from it, with the count shifted and
   the grade lowered to the weakest crossed before it.
   */
  lemma {:induction false} Resumption<N>(reference: Reference<N>, replica: Replicas<N>, more: Replicas<N>,
                                         root: Vouched<N>, segments: Path)
    returns (hops: seq<nat>, grade: Authority, n: nat)
    requires Extends(more, replica)
    requires var r := Resolve(reference, replica, root, segments);
             r.Partial? && r.reason.UnsyncedTarget? && more(r.reason.target).Some?
    ensures var r := Resolve(reference, replica, root, segments);
            && r.consumed <= |segments|
            && Trail(reference, replica, root.namestore, root.authority, segments, hops, grade,
                     Waiting(n, r.reason.target))
            && var rest := Resolve(reference, more, more(r.reason.target).value, segments[r.consumed..]);
               Resolve(reference, more, root, segments) == Capped(Shift(rest, r.consumed), grade)
  {
    var ending;
    hops, grade, ending := WalkHasTrail(reference, replica, root.namestore, root.authority, segments, 0);
    var r := Resolve(reference, replica, root, segments);
    n := ending.length;
    var v := more(r.reason.target).value;
    ResumeFrom(reference, replica, more, root.namestore, root.authority, segments, hops, grade, n, r.reason.target, 0);
    WalkFactors(reference, more, v.namestore, grade, v.authority, segments[r.consumed..], 0, r.consumed);
  }

  // ----- no backtracking -----

  /** A store whose longer key leads to a document with no edges. */
  function ExampleReference(store: nat, path: Path): Option<Doc> {
    if store == 0 && path == ["a", "b"] then Some([1])
    else if store == 0 && path == ["a"] then Some([2])
    else if store == 2 && path == ["b", "c"] then Some([3])
    else None
  }

  function ExampleReplica(d: Doc): Option<Vouched<nat>> {
    if |d| == 1 then Some(Vouched(d[0] as nat, CarriageVerified)) else None
  }

  /** The selected edge stands: this path dangles, though its shorter key would have resolved it. */
  lemma GreedyDeadEnd()
    ensures Resolve(ExampleReference, ExampleReplica, Vouched(0, CarriageVerified), ["a", "b", "c"]) ==
            Partial(2, DanglingSegment)
    ensures ExampleReference(0, ["a"]) == Some([2])
    ensures Resolve(ExampleReference, ExampleReplica, Vouched(2, CarriageVerified), ["b", "c"]) ==
            Resolved(3, CarriageVerified)
  {
    hide FindMatch;
    var whole := ["a", "b", "c"];
    assert whole[..3] == whole && whole[..2] == ["a", "b"] && whole[2..] == ["c"];
    assert ["b", "c"][..2] == ["b", "c"] && ["b", "c"][2..] == [];
    FindMatchIsLongest(ExampleReference, 0, whole);
    assert Longest(ExampleReference, 0, whole, 2, [1]);
    FindMatchIsLongest(ExampleReference, 1, ["c"]);
    assert NoKey(ExampleReference, 1, ["c"]);
    FindMatchIsLongest(ExampleReference, 2, ["b", "c"]);
    assert Longest(ExampleReference, 2, ["b", "c"], 2, [3]);
  }
}
