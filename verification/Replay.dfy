/**
 Carriage replay to a fixpoint (onomancy_keyhive/src/authority.rs). The instance is the set
 of events it has ingested; whether it takes another is a given relation.
 */
module Replay {
  import opened Wrappers

  type Accepts<!E> = (set<E>, E) -> bool

  /** An event once acceptable stays so as more is ingested. */
  ghost predicate Monotone<E(!new)>(accepts: Accepts<E>) {
    forall s: set<E>, t: set<E>, e: E | s <= t && accepts(s, e) :: accepts(t, e)
  }

  // ----- the loop, as functions -----

  /** One round: take each event in turn, deferring those refused. */
  function Round<E>(accepts: Accepts<E>, ingested: set<E>, remaining: seq<E>): (r: (set<E>, seq<E>))
    ensures |r.1| <= |remaining|
    decreases |remaining|
  {
    if remaining == [] then (ingested, [])
    else if accepts(ingested, remaining[0]) then Round(accepts, ingested + {remaining[0]}, remaining[1..])
    else
      var (after, deferred) := Round(accepts, ingested, remaining[1..]);
      (after, [remaining[0]] + deferred)
  }

  /** Rounds until nothing is left, or until one ingests nothing. Gives what was ingested and what was not. */
  function Settle<E>(accepts: Accepts<E>, ingested: set<E>, remaining: seq<E>): (set<E>, seq<E>)
    decreases |remaining|
  {
    var (after, deferred) := Round(accepts, ingested, remaining);
    if deferred == [] || |deferred| == |remaining| then (after, deferred)
    else Settle(accepts, after, deferred)
  }

  function ReplayEvents<E>(accepts: Accepts<E>, events: seq<E>): Option<set<E>> {
    var (ingested, left) := Settle(accepts, {}, events);
    if left == [] then Some(ingested) else None
  }

  function Rounds<E>(accepts: Accepts<E>, ingested: set<E>, remaining: seq<E>): nat
    decreases |remaining|
  {
    var (after, deferred) := Round(accepts, ingested, remaining);
    if deferred == [] || |deferred| == |remaining| then 1
    else 1 + Rounds(accepts, after, deferred)
  }

  // ----- the loop itself -----

  ghost function WithDeferred<E>(before: seq<E>, r: (set<E>, seq<E>)): (set<E>, seq<E>) {
    (r.0, before + r.1)
  }

  method ReplayLoop<E(==)>(accepts: Accepts<E>, events: seq<E>) returns (r: Option<set<E>>, rounds: nat)
    ensures r == ReplayEvents(accepts, events)
    ensures rounds == Rounds(accepts, {}, events)
  {
    var instance: set<E> := {};
    var remaining := events;
    rounds := 0;
    while true
      invariant Settle(accepts, instance, remaining) == Settle(accepts, {}, events)
      invariant rounds + Rounds(accepts, instance, remaining) == Rounds(accepts, {}, events)
      decreases |remaining|
    {
      rounds := rounds + 1;
      var deferred: seq<E> := [];
      ghost var start := instance;
      ghost var left := Round(accepts, instance, remaining).1;
      assert remaining[0..] == remaining && [] + left == left;
      for i := 0 to |remaining|
        invariant WithDeferred(deferred, Round(accepts, instance, remaining[i..])) == Round(accepts, start, remaining)
      {
        assert remaining[i..][1..] == remaining[i + 1..];
        var event := remaining[i];
        ghost var (after, more) := Round(accepts, instance, remaining[i + 1..]);
        if accepts(instance, event) {
          instance := instance + {event};
        } else {
          assert deferred + ([event] + more) == deferred + [event] + more;
          deferred := deferred + [event];
        }
      }
      assert remaining[|remaining|..] == [] && deferred + [] == deferred;
      if deferred == [] {
        return Some(instance), rounds;
      }
      if |deferred| == |remaining| {
        return None, rounds;
      }
      remaining := deferred;
    }
  }

  /** At most as many rounds as events, and one for none. */
  lemma {:induction false} FewRounds<E>(accepts: Accepts<E>, ingested: set<E>, remaining: seq<E>)
    ensures 1 <= Rounds(accepts, ingested, remaining) <= if remaining == [] then 1 else |remaining|
    decreases |remaining|
  {
    var (after, deferred) := Round(accepts, ingested, remaining);
    if deferred != [] && |deferred| != |remaining| {
      FewRounds(accepts, after, deferred);
    }
  }

  // ----- the least fixpoint -----

  ghost function Elements<E(!new)>(s: seq<E>): (r: set<E>)
    ensures forall e :: e in r <==> e in s
  {
    set e | e in s
  }

  /** Nothing further in `events` is acceptable. */
  ghost predicate Closed<E>(accepts: Accepts<E>, events: seq<E>, s: set<E>) {
    forall e | e in events && accepts(s, e) :: e in s
  }

  /** What a monotone relation accepted it would accept again. */
  ghost predicate Settled<E>(accepts: Accepts<E>, s: set<E>) {
    forall e | e in s :: accepts(s, e)
  }

  /** A round loses nothing. */
  lemma {:induction false} RoundKeeps<E(!new)>(accepts: Accepts<E>, ingested: set<E>, remaining: seq<E>)
    requires Monotone(accepts) && Settled(accepts, ingested)
    ensures var (after, deferred) := Round(accepts, ingested, remaining);
            ingested <= after && Settled(accepts, after) && after + Elements(deferred) == ingested + Elements(remaining)
    decreases |remaining|
  {
    if remaining != [] {
      var e := remaining[0];
      assert Elements(remaining) == {e} + Elements(remaining[1..]);
      if accepts(ingested, e) {
        RoundKeeps(accepts, ingested + {e}, remaining[1..]);
      } else {
        RoundKeeps(accepts, ingested, remaining[1..]);
        var (after, deferred) := Round(accepts, ingested, remaining[1..]);
        assert Elements([e] + deferred) == {e} + Elements(deferred);
      }
    }
  }

  /** A round ingests only what every closed set holds. */
  lemma {:induction false} RoundBelow<E(!new)>(accepts: Accepts<E>, ingested: set<E>, remaining: seq<E>, events: seq<E>,
                                               bound: set<E>)
    requires Monotone(accepts) && Closed(accepts, events, bound)
    requires ingested <= bound && forall e | e in remaining :: e in events
    ensures Round(accepts, ingested, remaining).0 <= bound
    decreases |remaining|
  {
    if remaining != [] {
      var e := remaining[0];
      assert e in remaining;
      if accepts(ingested, e) {
        assert accepts(bound, e);
        RoundBelow(accepts, ingested + {e}, remaining[1..], events, bound);
      } else {
        RoundBelow(accepts, ingested, remaining[1..], events, bound);
      }
    }
  }

  /** A round that ingests nothing refused everything, from where it stood. */
  lemma {:induction false} StuckRound<E(!new)>(accepts: Accepts<E>, ingested: set<E>, remaining: seq<E>)
    requires |Round(accepts, ingested, remaining).1| == |remaining|
    ensures Round(accepts, ingested, remaining) == (ingested, remaining)
    ensures forall e | e in remaining :: !accepts(ingested, e)
    decreases |remaining|
  {
    if remaining != [] {
      if !accepts(ingested, remaining[0]) {
        StuckRound(accepts, ingested, remaining[1..]);
        assert remaining == [remaining[0]] + remaining[1..];
        assert forall e | e in remaining :: e == remaining[0] || e in remaining[1..];
      }
    }
  }

  lemma {:induction false} SettleIsClosed<E(!new)>(accepts: Accepts<E>, ingested: set<E>, remaining: seq<E>,
                                                   events: seq<E>)
    requires Monotone(accepts) && Settled(accepts, ingested)
    requires ingested + Elements(remaining) == Elements(events)
    ensures var (after, left) := Settle(accepts, ingested, remaining);
            Closed(accepts, events, after) && after <= Elements(events) && (left == [] <==> after == Elements(events))
    decreases |remaining|
  {
    var (after, deferred) := Round(accepts, ingested, remaining);
    RoundKeeps(accepts, ingested, remaining);
    if deferred != [] {
      if |deferred| == |remaining| {
        StuckRound(accepts, ingested, remaining);
        assert remaining[0] in Elements(events) && remaining[0] !in ingested;
        assert forall e | e in events :: e in Elements(events);
      } else {
        SettleIsClosed(accepts, after, deferred, events);
      }
    }
  }

  lemma {:induction false} SettleBelow<E(!new)>(accepts: Accepts<E>, ingested: set<E>, remaining: seq<E>,
                                                events: seq<E>, bound: set<E>)
    requires Monotone(accepts) && Closed(accepts, events, bound)
    requires ingested <= bound && forall e | e in remaining :: e in events
    ensures Settle(accepts, ingested, remaining).0 <= bound
    decreases |remaining|
  {
    var (after, deferred) := Round(accepts, ingested, remaining);
    RoundBelow(accepts, ingested, remaining, events, bound);
    DeferredComeFrom(accepts, ingested, remaining);
    if deferred != [] && |deferred| != |remaining| {
      SettleBelow(accepts, after, deferred, events, bound);
    }
  }

  lemma {:induction false} DeferredComeFrom<E(!new)>(accepts: Accepts<E>, ingested: set<E>, remaining: seq<E>)
    ensures forall e | e in Round(accepts, ingested, remaining).1 :: e in remaining
    decreases |remaining|
  {
    if remaining != [] {
      DeferredComeFrom(accepts, ingested, remaining[1..]);
      DeferredComeFrom(accepts, ingested + {remaining[0]}, remaining[1..]);
    }
  }

  /**
   Replay computes a least fixpoint: what it ingests is closed, is contained in every closed
   set, and replay succeeds exactly when it is everything.
   */
  lemma LeastFixpoint<E(!new)>(accepts: Accepts<E>, events: seq<E>)
    requires Monotone(accepts)
    ensures var ingested := Settle(accepts, {}, events).0;
            && Closed(accepts, events, ingested)
            && (forall s | Closed(accepts, events, s) :: ingested <= s)
            && ReplayEvents(accepts, events) == if ingested == Elements(events) then Some(Elements(events)) else None
  {
    hide Settle, Closed;
    SettleIsClosed(accepts, {}, events, events);
    forall s | Closed(accepts, events, s)
      ensures Settle(accepts, {}, events).0 <= s
    {
      SettleBelow(accepts, {}, events, events, s);
    }
  }

  // ----- how the loop notices that it is stuck -----

  /** What the loop has come to after some rounds. */
  datatype Verdict<E> = Replayed(ingested: set<E>) | Refused | Looping(ingested: set<E>, remaining: seq<E>)

  /** The loop's own test: a round's deferred vector is as long as its capacity, which the allocator chooses. */
  function Loop<E>(accepts: Accepts<E>, ingested: set<E>, remaining: seq<E>, capacities: seq<nat>): Verdict<E>
    decreases |capacities|
  {
    if capacities == [] then Looping(ingested, remaining)
    else
      var (after, deferred) := Round(accepts, ingested, remaining);
      if deferred == [] then Replayed(after)
      else if |deferred| == capacities[0] then Refused
      else Loop(accepts, after, deferred, capacities[1..])
  }

  /** Each capacity is at least what was asked for, the number of events its round began with. */
  ghost predicate Allocates<E>(accepts: Accepts<E>, ingested: set<E>, remaining: seq<E>, capacities: seq<nat>)
    decreases |capacities|
  {
    capacities == [] ||
    (&& |remaining| <= capacities[0]
     && var (after, deferred) := Round(accepts, ingested, remaining);
        Allocates(accepts, after, deferred, capacities[1..]))
  }

  /**
   A carriage that replays is replayed whatever the capacities. One that does not is refused exactly
   when some round, from the first stuck one on, has a capacity equal to the number of events left;
   until then the loop goes round without progress.
   */
  lemma {:induction false} LoopExactly<E(!new)>(accepts: Accepts<E>, ingested: set<E>, remaining: seq<E>,
                                                capacities: seq<nat>)
    requires Allocates(accepts, ingested, remaining, capacities)
    ensures var (after, left), n := Settle(accepts, ingested, remaining), Rounds(accepts, ingested, remaining);
            var verdict := Loop(accepts, ingested, remaining, capacities);
            && (left == [] && n <= |capacities| ==> verdict == Replayed(after))
            && (left == [] && n > |capacities| ==> verdict.Looping?)
            && (left != [] ==> !verdict.Replayed?)
            && (left != [] ==>
                  (verdict == Refused <==> exists i :: n - 1 <= i < |capacities| && capacities[i] == |left|))
            && (left != [] && n <= |capacities| && verdict.Looping? ==> verdict == Looping(after, left))
    decreases |capacities|
  {
    hide Round;
    if capacities != [] {
      var (after, deferred) := Round(accepts, ingested, remaining);
      var rest := capacities[1..];
      LoopExactly(accepts, after, deferred, rest);
      if |deferred| == |remaining| {
        StuckRound(accepts, ingested, remaining);
      }
      var left, n := Settle(accepts, ingested, remaining).1, Rounds(accepts, ingested, remaining);
      var m := if deferred == [] || |deferred| == |remaining| then n else n - 1;
      if i :| n - 1 <= i < |capacities| && capacities[i] == |left| {
        assert i > 0 ==> rest[i - 1] == |left|;
      }
      if i :| m - 1 <= i < |rest| && rest[i] == |left| {
        assert capacities[i + 1] == |left|;
      }
    }
  }

  // ----- order does not matter -----

  /** Taken in this order, every event is accepted when its turn comes. */
  ghost predicate Ingests<E>(accepts: Accepts<E>, ingested: set<E>, order: seq<E>)
    decreases |order|
  {
    order == [] || (accepts(ingested, order[0]) && Ingests(accepts, ingested + {order[0]}, order[1..]))
  }

  lemma {:induction false} OrderStaysInside<E(!new)>(accepts: Accepts<E>, ingested: set<E>, order: seq<E>,
                                                     events: seq<E>, bound: set<E>)
    requires Monotone(accepts) && Closed(accepts, events, bound)
    requires ingested <= bound && Ingests(accepts, ingested, order) && forall e | e in order :: e in events
    ensures Elements(order) <= bound
    decreases |order|
  {
    if order != [] {
      var e := order[0];
      assert e in order && accepts(bound, e);
      OrderStaysInside(accepts, ingested + {e}, order[1..], events, bound);
      assert forall x | x in order :: x == e || x in order[1..];
    }
  }

  lemma {:induction false} IngestsAppend<E(!new)>(accepts: Accepts<E>, ingested: set<E>, a: seq<E>, b: seq<E>)
    requires Ingests(accepts, ingested, a) && Ingests(accepts, ingested + Elements(a), b)
    ensures Ingests(accepts, ingested, a + b)
    decreases |a|
  {
    if a == [] {
      assert a + b == b && ingested + Elements(a) == ingested;
    } else {
      var e := a[0];
      assert (a + b)[1..] == a[1..] + b;
      assert forall x :: x in a <==> x == e || x in a[1..];
      assert ingested + Elements(a) == (ingested + {e}) + Elements(a[1..]);
      IngestsAppend(accepts, ingested + {e}, a[1..], b);
    }
  }

  /** A round ingests its accepted events in an order that works; with the deferred they are what it was given. */
  lemma {:induction false} RoundOrder<E(!new)>(accepts: Accepts<E>, ingested: set<E>,
                                               remaining: seq<E>) returns (order: seq<E>)
    ensures var (after, deferred) := Round(accepts, ingested, remaining);
            && Ingests(accepts, ingested, order) && after == ingested + Elements(order)
            && multiset(order) + multiset(deferred) == multiset(remaining)
    decreases |remaining|
  {
    if remaining == [] {
      order := [];
      assert ingested + Elements(order) == ingested;
    } else {
      var e := remaining[0];
      assert remaining == [e] + remaining[1..];
      if accepts(ingested, e) {
        var rest := RoundOrder(accepts, ingested + {e}, remaining[1..]);
        order := [e] + rest;
        assert order[1..] == rest;
        assert ingested + Elements(order) == ingested + {e} + Elements(rest);
      } else {
        order := RoundOrder(accepts, ingested, remaining[1..]);
      }
    }
  }

  lemma {:induction false} SettleOrder<E(!new)>(accepts: Accepts<E>, ingested: set<E>,
                                                remaining: seq<E>) returns (order: seq<E>)
    ensures var (after, left) := Settle(accepts, ingested, remaining);
            && Ingests(accepts, ingested, order) && after == ingested + Elements(order)
            && multiset(order) + multiset(left) == multiset(remaining)
    decreases |remaining|
  {
    var (after, deferred) := Round(accepts, ingested, remaining);
    order := RoundOrder(accepts, ingested, remaining);
    if deferred != [] && |deferred| != |remaining| {
      var more := SettleOrder(accepts, after, deferred);
      IngestsAppend(accepts, ingested, order, more);
      assert ingested + Elements(order + more) == after + Elements(more);
      order := order + more;
    }
  }

  /** `order` rearranges `events` so that a fresh instance ingests them one after the other. */
  ghost predicate Works<E>(accepts: Accepts<E>, events: seq<E>, order: seq<E>) {
    multiset(order) == multiset(events) && Ingests(accepts, {}, order)
  }

  lemma OrderSuffices<E(!new)>(accepts: Accepts<E>, events: seq<E>, order: seq<E>)
    requires Monotone(accepts) && Works(accepts, events, order)
    ensures ReplayEvents(accepts, events).Some?
  {
    hide Settle, Closed, Ingests, Monotone;
    LeastFixpoint(accepts, events);
    SameElements(order, events);
    OrderStaysInside(accepts, {}, order, events, Settle(accepts, {}, events).0);
    SettleIsClosed(accepts, {}, events, events);
    assert Settle(accepts, {}, events).0 == Elements(events);
  }

  lemma OrderFound<E(!new)>(accepts: Accepts<E>, events: seq<E>) returns (order: seq<E>)
    requires ReplayEvents(accepts, events).Some?
    ensures Works(accepts, events, order)
  {
    order := SettleOrder(accepts, {}, events);
  }

  /** Replay succeeds exactly when some order of the same events ingests them all. */
  lemma ReplayExactly<E(!new)>(accepts: Accepts<E>, events: seq<E>)
    requires Monotone(accepts)
    ensures ReplayEvents(accepts, events).Some? <==> exists order :: Works(accepts, events, order)
  {
    hide ReplayEvents, Works, Monotone;
    if ReplayEvents(accepts, events).Some? {
      var order := OrderFound(accepts, events);
    }
    if order :| Works(accepts, events, order) {
      OrderSuffices(accepts, events, order);
    }
  }

  lemma SameElements<E(!new)>(a: seq<E>, b: seq<E>)
    requires multiset(a) == multiset(b)
    ensures Elements(a) == Elements(b)
  {
    forall e ensures e in a <==> e in b {
      assert e in a <==> e in multiset(a);
      assert e in b <==> e in multiset(b);
    }
  }

  /** Entry order and repetition do not matter. */
  lemma OrderIsIrrelevant<E(!new)>(accepts: Accepts<E>, a: seq<E>, b: seq<E>)
    requires Monotone(accepts) && Elements(a) == Elements(b)
    ensures ReplayEvents(accepts, a) == ReplayEvents(accepts, b)
  {
    hide Settle;
    LeastFixpoint(accepts, a);
    LeastFixpoint(accepts, b);
    forall s ensures Closed(accepts, a, s) <==> Closed(accepts, b, s) {
      assert forall e :: e in a <==> e in Elements(a);
      assert forall e :: e in b <==> e in Elements(b);
    }
  }

  /** An event `false` that `true` shuts out. */
  predicate Shutting(s: set<bool>, e: bool) {
    e || true !in s
  }

  /** Monotonicity is needed: where one event can shut another out, entry order decides. */
  lemma OrderCanMatter()
    ensures ReplayEvents(Shutting, [false, true]) == Some({false, true})
    ensures ReplayEvents(Shutting, [true, false]) == None
  {
    var early, late := [false, true], [true, false];
    assert early[1..] == [true] && [true][1..] == [] && late[1..] == [false] && [false][1..] == [];
    assert [false] + [] == [false];
    assert {} + {false} == {false} && {} + {true} == {true} && {false} + {true} == {false, true};
    assert Round(Shutting, {false}, [true]) == ({false, true}, []);
    assert Round(Shutting, {}, early) == ({false, true}, []);
    assert Round(Shutting, {true}, [false]) == ({true}, [false]);
    assert Round(Shutting, {}, late) == ({true}, [false]);
  }

  // ----- the carriage -----

  function ParseAll<B, E>(parse: B -> Option<E>, entries: seq<B>): Option<seq<E>> {
    if entries == [] then Some([])
    else match (parse(entries[0]), ParseAll(parse, entries[1..]))
         case (Some(e), Some(more)) => Some([e] + more)
         case _ => None
  }

  function ReplayCarriage<B, E>(parse: B -> Option<E>, accepts: Accepts<E>, entries: seq<B>): Option<set<E>> {
    match ParseAll(parse, entries)
    case None => None
    case Some(events) => ReplayEvents(accepts, events)
  }

  lemma {:induction false} ParseAllMeans<B(!new), E(!new)>(parse: B -> Option<E>, entries: seq<B>)
    ensures ParseAll(parse, entries).Some? <==> forall b | b in entries :: parse(b).Some?
    ensures ParseAll(parse, entries).Some? ==>
              forall e :: e in ParseAll(parse, entries).value <==> exists b :: b in entries && parse(b) == Some(e)
  {
    if entries != [] {
      ParseAllMeans(parse, entries[1..]);
      assert forall b :: b in entries <==> b == entries[0] || b in entries[1..];
    }
  }

  /** Carriages with the same entries, in any order and with any repetition, prove the same. */
  lemma {:induction false} CarriageOrderIsIrrelevant<B(!new), E(!new)>(parse: B -> Option<E>, accepts: Accepts<E>,
        a: seq<B>, b: seq<B>)
    requires Monotone(accepts) && forall entry :: entry in a <==> entry in b
    ensures ReplayCarriage(parse, accepts, a) == ReplayCarriage(parse, accepts, b)
  {
    hide ParseAll, ReplayEvents, Monotone;
    ParseAllMeans(parse, a);
    ParseAllMeans(parse, b);
    if ParseAll(parse, a).Some? && ParseAll(parse, b).Some? {
      assert Elements(ParseAll(parse, a).value) == Elements(ParseAll(parse, b).value);
      OrderIsIrrelevant(accepts, ParseAll(parse, a).value, ParseAll(parse, b).value);
    }
  }
}
