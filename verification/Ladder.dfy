/**
 The comparison ladder: which record is the zone's later word
 (onomancy_protocol/src/ladder.rs, onomancy_dnssec/src/zone_state_key.rs).
 */
module Ladder {
  import opened Wire

  type Doc = Bytes

  datatype Freshness = Fresh | Stale

  datatype ZoneStateKey = ZoneStateKey(windowEnd: nat, serial: nat, issuedAt: nat)

  datatype Contender = Contender(document: Doc, freshness: Freshness, key: ZoneStateKey)

  datatype Continuity = Fork | LeftNewer | RightNewer | Silent

  datatype Verdict = Equal | Equivocation | Forked | Left | Right

  datatype Order = Less | Same | Greater

  function CompareNat(a: nat, b: nat): Order {
    if a < b then Less else if a > b then Greater else Same
  }

  function Then(first: Order, second: Order): Order {
    if first.Same? then second else first
  }

  /** Field by field, in declaration order. */
  function CompareKeys(a: ZoneStateKey, b: ZoneStateKey): Order {
    Then(CompareZoneVouched(a, b), CompareNat(a.issuedAt, b.issuedAt))
  }

  function CompareZoneVouched(a: ZoneStateKey, b: ZoneStateKey): Order {
    Then(CompareNat(a.windowEnd, b.windowEnd), CompareNat(a.serial, b.serial))
  }

  function Compare(left: Contender, right: Contender, continuity: Continuity): Verdict {
    match (left.freshness, right.freshness)
    case (Fresh, Stale) => Left
    case (Stale, Fresh) => Right
    case _ =>
      match continuity
      case Fork => Forked
      case LeftNewer => Left
      case RightNewer => Right
      case Silent =>
        if left.document == right.document then
          match CompareKeys(left.key, right.key)
          case Greater => Left
          case Less => Right
          case Same => Equal
        else
          match CompareZoneVouched(left.key, right.key)
          case Greater => Left
          case Less => Right
          case Same => Equivocation
  }

  // ----- seen from the other side -----

  function MirrorContinuity(c: Continuity): Continuity {
    match c
    case LeftNewer => RightNewer
    case RightNewer => LeftNewer
    case _ => c
  }

  function Mirror(v: Verdict): Verdict {
    match v
    case Left => Right
    case Right => Left
    case _ => v
  }

  /** Swapping the contenders, and what the statements say of them, swaps the verdict. */
  lemma Antisymmetry(a: Contender, b: Contender, continuity: Continuity)
    ensures Compare(b, a, MirrorContinuity(continuity)) == Mirror(Compare(a, b, continuity))
  {
    CompareNatMirrors(a.key.windowEnd, b.key.windowEnd);
    CompareNatMirrors(a.key.serial, b.key.serial);
    CompareNatMirrors(a.key.issuedAt, b.key.issuedAt);
  }

  lemma CompareNatMirrors(a: nat, b: nat)
    ensures CompareNat(b, a) == match CompareNat(a, b) case Less => Greater case Greater => Less case Same => Same
  {
  }

  // ----- what each verdict means -----

  /** Earlier at (window end, serial). */
  predicate ZoneBelow(a: ZoneStateKey, b: ZoneStateKey) {
    a.windowEnd < b.windowEnd || (a.windowEnd == b.windowEnd && a.serial < b.serial)
  }

  predicate SameZone(a: ZoneStateKey, b: ZoneStateKey) {
    a.windowEnd == b.windowEnd && a.serial == b.serial
  }

  /** Ahead on rung 2: in zone-vouched state, or in issuance within one document. */
  predicate KeyAhead(a: Contender, b: Contender) {
    ZoneBelow(b.key, a.key) || (SameZone(a.key, b.key) && a.document == b.document && b.key.issuedAt < a.key.issuedAt)
  }

  /** Every verdict, rung by rung: freshness, then the statements when they speak, then the key. */
  lemma VerdictMeans(a: Contender, b: Contender, continuity: Continuity)
    ensures var verdict := Compare(a, b, continuity);
            var level, silent := a.freshness == b.freshness, continuity == Silent;
            && (verdict == Left <==>
                || (a.freshness.Fresh? && b.freshness.Stale?)
                || (level && (continuity == LeftNewer || (silent && KeyAhead(a, b)))))
            && (verdict == Right <==>
                || (a.freshness.Stale? && b.freshness.Fresh?)
                || (level && (continuity == RightNewer || (silent && KeyAhead(b, a)))))
            && (verdict == Forked <==> level && continuity == Fork)
            && (verdict == Equal <==> level && silent && a.document == b.document && a.key == b.key)
            && (verdict == Equivocation <==> level && silent && a.document != b.document && SameZone(a.key, b.key))
  {
  }

  // ----- precedence with the statements silent -----

  predicate Beats(a: Contender, b: Contender) {
    Compare(a, b, Silent) == Left
  }

  /** The ladder read off rung by rung: freshness, then zone-vouched state, then issuance within one document. */
  lemma BeatsMeans(a: Contender, b: Contender)
    ensures Beats(a, b) <==>
            (a.freshness.Fresh? && b.freshness.Stale?) || (a.freshness == b.freshness && KeyAhead(a, b))
  {
  }

  /** "Beats" is a strict partial order. */
  lemma BeatsIsStrictPartialOrder(a: Contender, b: Contender, c: Contender)
    ensures !Beats(a, a)
    ensures Beats(a, b) ==> !Beats(b, a)
    ensures Beats(a, b) && Beats(b, c) ==> Beats(a, c)
  {
    BeatsMeans(a, a);
    BeatsMeans(a, b);
    BeatsMeans(b, a);
    BeatsMeans(b, c);
    BeatsMeans(a, c);
  }

  /**
   It is no weak order: a third document's record can tie with two records of which one beats
   the other, so "neither beats" is not transitive and a running champion would depend on order.
   */
  lemma TiesAreNotTransitive()
    ensures exists a, b, c ::
              Beats(a, b) && Compare(a, c, Silent) == Equivocation && Compare(b, c, Silent) == Equivocation
  {
    var a := Contender([1], Fresh, ZoneStateKey(9, 9, 2));
    var b := Contender([1], Fresh, ZoneStateKey(9, 9, 1));
    var c := Contender([2], Fresh, ZoneStateKey(9, 9, 0));
    assert Beats(a, b) && Compare(a, c, Silent) == Equivocation && Compare(b, c, Silent) == Equivocation;
  }

  // ----- maxima -----

  ghost predicate Maximal(s: set<Contender>, m: Contender) {
    m in s && forall c | c in s :: !Beats(c, m)
  }

  /** Every non-empty finite set of contenders has a maximal element, at or above any given one. */
  lemma {:induction false} MaximalExists(s: set<Contender>, c: Contender) returns (m: Contender)
    requires c in s
    ensures Maximal(s, m) && (m == c || Beats(m, c))
    decreases |s|
  {
    hide Beats;
    if d :| d in s && Beats(d, c) {
      var rest := s - {c};
      forall x ensures !Beats(c, c) && (Beats(c, x) && Beats(x, d) ==> Beats(c, d)) && !Beats(c, d) {
        BeatsIsStrictPartialOrder(c, x, d);
        BeatsIsStrictPartialOrder(d, c, d);
      }
      assert d in rest;
      m := MaximalExists(rest, d);
      BeatsIsStrictPartialOrder(m, d, c);
      BeatsIsStrictPartialOrder(c, m, c);
    } else {
      m := c;
    }
  }

  /**
   All maximal contenders share freshness, window end and serial, and any two of them are
   Equal or Equivocation: no enumeration order can decide a winner among them.
   */
  lemma MaximaAgree(s: set<Contender>, a: Contender, b: Contender)
    requires Maximal(s, a) && Maximal(s, b)
    ensures a.freshness == b.freshness && a.key.windowEnd == b.key.windowEnd && a.key.serial == b.key.serial
    ensures Compare(a, b, Silent) == if a.document == b.document then Equal else Equivocation
    ensures a.document == b.document ==> a == b
  {
    assert !Beats(a, b) && !Beats(b, a);
    Antisymmetry(a, b, Silent);
  }

  /** At least as fresh, and at least as late in zone-vouched state. */
  predicate Dominates(m: Contender, c: Contender) {
    || (m.freshness.Fresh? && c.freshness.Stale?)
    || (m.freshness == c.freshness && !ZoneBelow(m.key, c.key))
  }

  /**
   The maximal contenders exactly: those no other exceeds in freshness and zone-vouched state,
   and which issue last among the records of their own document that tie with them.
   */
  lemma MaximalExactly(s: set<Contender>, m: Contender)
    ensures Maximal(s, m) <==>
            && m in s && (forall c | c in s :: Dominates(m, c))
            && forall c | c in s && c.freshness == m.freshness && SameZone(c.key, m.key) && c.document == m.document ::
                 c.key.issuedAt <= m.key.issuedAt
  {
    hide Beats;
    forall c ensures Beats(c, m) <==>
              || !Dominates(m, c)
              || (c.freshness == m.freshness && SameZone(c.key, m.key) && c.document == m.document &&
                  m.key.issuedAt < c.key.issuedAt)
    {
      BeatsMeans(c, m);
    }
  }
}
