/** The RRset rule over one zone's TXT strings at one instant (onomancy_wasm/src/records.rs). */
module Selection {
  import opened Wrappers
  import opened Wire
  import opened Ordering
  import opened Serials
  import opened TxtRecords
  import opened Anchors
  import Base64

  ghost predicate Injective(show: Bytes -> string) {
    forall a: Bytes, b: Bytes | show(a) == show(b) :: a == b
  }

  /** How a document is spelled after the scheme: some injective text. */
  type Spelling = f: Bytes -> string | Injective(f) ghost witness SomeSpelling()

  ghost function SomeSpelling(): (f: Bytes -> string)
    ensures Injective(f)
  {
    OctetsDistinguish();
    Octets
  }

  function Octets(b: Bytes): string {
    seq(|b|, i requires 0 <= i < |b| => b[i] as char)
  }

  lemma OctetsDistinguish()
    ensures Injective(Octets)
  {
    forall a: Bytes, b: Bytes | Octets(a) == Octets(b)
      ensures a == b
    {
      assert |a| == |Octets(a)| == |b|;
      forall i | 0 <= i < |a| ensures a[i] == b[i] {
        assert Octets(a)[i] == Octets(b)[i];
      }
    }
  }

  /** What the rule takes as given: the key test, the document spelling, the skew bound in milliseconds. */
  datatype Rules = Rules(canonical: KeyTest, show: Spelling, skewMs: nat)

  datatype Candidate = Candidate(document: string, generation: string, serial: string)

  datatype Classification = Classification(
    selected: Option<Candidate>,
    contested: seq<Candidate>,
    deferred: nat,
    foreign: nat,
    unknownVersion: nat,
    malformed: nat)

  const EMPTY_CLASSIFICATION: Classification := Classification(None, [], 0, 0, 0, 0)

  function SaturatingMul(a: nat, b: nat): nat {
    if a * b < U64_LIMIT then a * b else U64_LIMIT - 1
  }

  function SaturatingAdd(a: nat, b: nat): nat {
    if a + b < U64_LIMIT then a + b else U64_LIMIT - 1
  }

  predicate IsDeferred(rules: Rules, r: TxtRecord, now: nat) {
    r.serial > SaturatingAdd(SaturatingMul(now, 1000), rules.skewMs)
  }

  function CandidateOf(rules: Rules, r: TxtRecord): Candidate {
    Candidate(SCHEME_PREFIX + rules.show(r.document), Base64.Encode(r.generation), Decimal(r.serial))
  }

  predicate CandidateLess(a: Candidate, b: Candidate) {
    || TextLess(a.document, b.document)
    || (a.document == b.document && TextLess(a.generation, b.generation))
    || (a.document == b.document && a.generation == b.generation && TextLess(a.serial, b.serial))
  }

  // ----- the specification -----

  datatype Disposition = Consider(record: TxtRecord) | Defer | Foreign | Unimplemented | Malformed

  function Dispose(rules: Rules, raw: string, now: nat): Disposition {
    match Classify(rules.canonical, raw)
    case Ok(Binding(record)) => if IsDeferred(rules, record, now) then Defer else Consider(record)
    case Ok(UnknownVersion) => Unimplemented
    case Ok(UnknownRecord) => Foreign
    case Err(_) => Malformed
  }

  function Considered(rules: Rules, raws: seq<string>, now: nat): seq<TxtRecord> {
    if raws == [] then []
    else
      var d := Dispose(rules, raws[0], now);
      (if d.Consider? then [d.record] else []) + Considered(rules, raws[1..], now)
  }

  function Count(rules: Rules, raws: seq<string>, now: nat, d: Disposition): nat {
    if raws == [] then 0
    else (if Dispose(rules, raws[0], now) == d then 1 else 0) + Count(rules, raws[1..], now, d)
  }

  function TopSerial(records: seq<TxtRecord>): (top: nat)
    requires records != []
    ensures exists r :: r in records && r.serial == top
    ensures forall r | r in records :: r.serial <= top
  {
    if |records| == 1 then
      assert records[0] in records;
      records[0].serial
    else
      var rest := TopSerial(records[1..]);
      assert forall r :: r in records <==> r == records[0] || r in records[1..];
      if records[0].serial > rest then records[0].serial else rest
  }

  function CandidatesAt(rules: Rules, records: seq<TxtRecord>, serial: nat): (cs: seq<Candidate>)
    ensures forall c :: c in cs <==> exists r :: r in records && r.serial == serial && c == CandidateOf(rules, r)
  {
    if records == [] then []
    else
      var rest := CandidatesAt(rules, records[1..], serial);
      assert forall r :: r in records <==> r == records[0] || r in records[1..];
      if records[0].serial == serial then [CandidateOf(rules, records[0])] + rest else rest
  }

  /** The distinct claims at the top serial, in order. */
  function TopClaims(rules: Rules, records: seq<TxtRecord>): seq<Candidate> {
    if records == [] then []
    else SortDistinct(CandidateLess, CandidatesAt(rules, records, TopSerial(records)))
  }

  function ClassifySet(rules: Rules, raws: seq<string>, now: nat): Classification {
    var claims := TopClaims(rules, Considered(rules, raws, now));
    Classification(
      if |claims| == 1 then Some(claims[0]) else None,
      if |claims| == 1 then [] else claims,
      Count(rules, raws, now, Defer),
      Count(rules, raws, now, Foreign),
      Count(rules, raws, now, Unimplemented),
      Count(rules, raws, now, Malformed))
  }

  // ----- the loop -----

  lemma {:induction false} ConsideredSnoc(rules: Rules, raws: seq<string>, raw: string, now: nat)
    ensures var d := Dispose(rules, raw, now);
            Considered(rules, raws + [raw], now) ==
            Considered(rules, raws, now) + if d.Consider? then [d.record] else []
    ensures forall d :: Count(rules, raws + [raw], now, d) ==
                        Count(rules, raws, now, d) + if Dispose(rules, raw, now) == d then 1 else 0
  {
    hide Dispose;
    if raws == [] {
      assert raws + [raw] == [raw];
    } else {
      assert (raws + [raw])[1..] == raws[1..] + [raw];
      ConsideredSnoc(rules, raws[1..], raw, now);
    }
  }

  method ClassifyRecords(rules: Rules, raws: seq<string>, now: nat) returns (tally: Classification)
    requires now < U64_LIMIT
    ensures tally == ClassifySet(rules, raws, now)
  {
    hide Classify, IsDeferred, Considered, Count;
    tally := EMPTY_CLASSIFICATION;
    var considered: seq<TxtRecord> := [];
    NothingYet(rules, now);
    for i := 0 to |raws|
      invariant considered == Considered(rules, raws[..i], now)
      invariant tally.selected == None && tally.contested == []
      invariant tally.deferred == Count(rules, raws[..i], now, Defer)
      invariant tally.foreign == Count(rules, raws[..i], now, Foreign)
      invariant tally.unknownVersion == Count(rules, raws[..i], now, Unimplemented)
      invariant tally.malformed == Count(rules, raws[..i], now, Malformed)
    {
      assert raws[..i] + [raws[i]] == raws[..i + 1];
      ConsideredSnoc(rules, raws[..i], raws[i], now);
      match Classify(rules.canonical, raws[i]) {
        case Ok(Binding(record)) =>
          if IsDeferred(rules, record, now) {
            tally := tally.(deferred := tally.deferred + 1);
          } else {
            considered := considered + [record];
          }
        case Ok(UnknownVersion) => tally := tally.(unknownVersion := tally.unknownVersion + 1);
        case Ok(UnknownRecord) => tally := tally.(foreign := tally.foreign + 1);
        case Err(_) => tally := tally.(malformed := tally.malformed + 1);
      }
    }
    assert raws[..|raws|] == raws;
    if considered == [] {
      return;
    }
    var claims := SortDistinct(CandidateLess, CandidatesAt(rules, considered, TopSerial(considered)));
    if |claims| == 1 {
      tally := tally.(selected := Some(claims[0]));
    } else {
      tally := tally.(contested := claims);
    }
  }

  lemma NothingYet(rules: Rules, now: nat)
    ensures Considered(rules, [], now) == [] && forall d :: Count(rules, [], now, d) == 0
  {
  }

  // ----- the counts -----

  /** Every string is counted once: the four tallies and the considered bindings sum to the input. */
  lemma {:induction false} CountsSum(rules: Rules, raws: seq<string>, now: nat)
    ensures var c := ClassifySet(rules, raws, now);
            c.deferred + c.foreign + c.unknownVersion + c.malformed + |Considered(rules, raws, now)| == |raws|
  {
    hide Dispose;
    if raws != [] {
      CountsSum(rules, raws[1..], now);
    }
  }

  lemma {:induction false} CountAppend(rules: Rules, a: seq<string>, b: seq<string>, now: nat, d: Disposition)
    ensures Count(rules, a + b, now, d) == Count(rules, a, now, d) + Count(rules, b, now, d)
  {
    hide Dispose;
    if a == [] {
      assert a + b == b;
    } else {
      assert (a + b)[1..] == a[1..] + b;
      CountAppend(rules, a[1..], b, now, d);
    }
  }

  lemma MultisetRemove(s: seq<string>, j: nat)
    requires j < |s|
    ensures multiset(s[..j] + s[j + 1..]) == multiset(s) - multiset{s[j]}
  {
    assert s == s[..j] + ([s[j]] + s[j + 1..]);
  }

  lemma {:induction false} CountRemove(rules: Rules, s: seq<string>, j: nat, now: nat, d: Disposition)
    requires j < |s|
    ensures Count(rules, s, now, d) ==
            Count(rules, s[..j] + s[j + 1..], now, d) + if Dispose(rules, s[j], now) == d then 1 else 0
  {
    hide Dispose;
    var after := [s[j]] + s[j + 1..];
    assert s == s[..j] + after && after[1..] == s[j + 1..];
    CountAppend(rules, s[..j], after, now, d);
    CountAppend(rules, s[..j], s[j + 1..], now, d);
  }

  lemma {:induction false} CountPermuted(rules: Rules, a: seq<string>, b: seq<string>, now: nat, d: Disposition)
    requires multiset(a) == multiset(b)
    ensures Count(rules, a, now, d) == Count(rules, b, now, d)
    decreases |a|
  {
    hide Dispose, Count;
    assert |a| == |multiset(a)| == |multiset(b)| == |b|;
    if a == [] {
      assert a == b;
    } else {
      assert a[0] in multiset(b);
      var j :| 0 <= j < |b| && b[j] == a[0];
      MultisetRemove(a, 0);
      MultisetRemove(b, j);
      CountRemove(rules, a, 0, now, d);
      CountRemove(rules, b, j, now, d);
      CountPermuted(rules, a[..0] + a[1..], b[..j] + b[j + 1..], now, d);
    }
  }

  // ----- the selection -----

  lemma {:induction false} ConsideredMeans(rules: Rules, raws: seq<string>, now: nat)
    ensures forall r :: r in Considered(rules, raws, now) <==>
                        exists raw :: raw in raws && Dispose(rules, raw, now) == Consider(r)
  {
    hide Dispose;
    if raws != [] {
      ConsideredMeans(rules, raws[1..], now);
      assert forall raw :: raw in raws <==> raw == raws[0] || raw in raws[1..];
    }
  }

  lemma CandidateOrder()
    ensures StrictTotal(CandidateLess)
  {
    hide TextLess;
    TextOrder();
    forall a, b: Candidate
      ensures !CandidateLess(a, a) && (a == b || CandidateLess(a, b) || CandidateLess(b, a))
    {
    }
    forall a, b, c: Candidate | CandidateLess(a, b) && CandidateLess(b, c)
      ensures CandidateLess(a, c)
    {
    }
  }

  /** Candidates come in the order of their document, then generation, then serial, each as text. */
  lemma CandidateLessMeans(a: Candidate, b: Candidate)
    ensures CandidateLess(a, b) <==>
            if a.document != b.document then TextPrecedes(a.document, b.document)
            else if a.generation != b.generation then TextPrecedes(a.generation, b.generation)
            else TextPrecedes(a.serial, b.serial)
  {
    hide TextLess, TextPrecedes;
    TextOrder();
    TextLessMeans(a.document, b.document);
    TextLessMeans(a.generation, b.generation);
    TextLessMeans(a.serial, b.serial);
  }

  /** What is shown of a record reads back: its anchor, its generation key and its serial. */
  lemma CandidateReadsBack(rules: Rules, r: TxtRecord)
    requires r.serial < U64_LIMIT
    ensures var c := CandidateOf(rules, r);
            && c.document == "automerge:" + rules.show(r.document)
            && Base64.Decode(c.generation) == Some(r.generation)
            && ParseSerial(c.serial) == Ok(r.serial)
  {
    hide Base64.Encode, Base64.Decode, Decimal, ParseSerial;
    Base64.RoundTrip(r.generation);
    SerialRoundTrip(r.serial);
  }

  /** Two records spell the same candidate only if they are the same record. */
  lemma CandidatesDistinguish(rules: Rules, a: TxtRecord, b: TxtRecord)
    ensures CandidateOf(rules, a) == CandidateOf(rules, b) <==> a == b
  {
    hide Base64.Encode, Base64.Decode, Decimal, DecimalValue;
    if CandidateOf(rules, a) == CandidateOf(rules, b) {
      var x, y := SCHEME_PREFIX + rules.show(a.document), SCHEME_PREFIX + rules.show(b.document);
      assert x[|SCHEME_PREFIX|..] == rules.show(a.document) && y[|SCHEME_PREFIX|..] == rules.show(b.document);
      Base64.RoundTrip(a.generation);
      Base64.RoundTrip(b.generation);
      DecimalMeans(a.serial);
      DecimalMeans(b.serial);
    }
  }

  /** Order and repetition of the considered records do not matter. */
  lemma TopClaimsBySet(rules: Rules, a: seq<TxtRecord>, b: seq<TxtRecord>)
    requires forall r :: r in a <==> r in b
    ensures TopClaims(rules, a) == TopClaims(rules, b)
  {
    hide CandidateOf, CandidateLess;
    if b != [] {
      assert b[0] in a;
    }
    if a != [] {
      assert a[0] in b;
      assert TopSerial(a) == TopSerial(b);
      CandidateOrder();
      SortDistinctBySet(CandidateLess, CandidatesAt(rules, a, TopSerial(a)), CandidatesAt(rules, b, TopSerial(b)));
    }
  }

  /** Selection and contest depend only on which strings are present. */
  lemma {:induction false} SelectionBySet(rules: Rules, a: seq<string>, b: seq<string>, now: nat)
    requires forall raw :: raw in a <==> raw in b
    ensures ClassifySet(rules, a, now).selected == ClassifySet(rules, b, now).selected
    ensures ClassifySet(rules, a, now).contested == ClassifySet(rules, b, now).contested
  {
    hide Dispose, TopClaims, Considered, Count;
    ConsideredMeans(rules, a, now);
    ConsideredMeans(rules, b, now);
    TopClaimsBySet(rules, Considered(rules, a, now), Considered(rules, b, now));
  }

  /** A permutation of the records changes nothing, the counts included. */
  lemma {:induction false} PermutationInvariant(rules: Rules, a: seq<string>, b: seq<string>, now: nat)
    requires multiset(a) == multiset(b)
    ensures ClassifySet(rules, a, now) == ClassifySet(rules, b, now)
  {
    hide TopClaims, Considered, Count;
    forall raw ensures raw in a <==> raw in b {
      assert raw in multiset(a) <==> raw in multiset(b);
    }
    SelectionBySet(rules, a, b, now);
    forall d ensures Count(rules, a, now, d) == Count(rules, b, now, d) {
      CountPermuted(rules, a, b, now, d);
    }
  }

  /** A considered record at the top non-deferred serial. */
  ghost predicate AtTop(records: seq<TxtRecord>, r: TxtRecord) {
    r in records && forall other | other in records :: other.serial <= r.serial
  }

  lemma TopClaimsMean(rules: Rules, records: seq<TxtRecord>)
    ensures forall c :: c in TopClaims(rules, records) <==> exists r :: AtTop(records, r) && c == CandidateOf(rules, r)
    ensures StrictlySorted(CandidateLess, TopClaims(rules, records))
    ensures TopClaims(rules, records) == [] <==> records == []
  {
    hide CandidateOf, CandidateLess;
    CandidateOrder();
    if records != [] {
      var top := TopSerial(records);
      forall r ensures AtTop(records, r) <==> r in records && r.serial == top {
      }
      SortDistinctSorted(CandidateLess, CandidatesAt(rules, records, top));
      var r :| r in records && r.serial == top;
      assert CandidateOf(rules, r) in CandidatesAt(rules, records, top);
    }
  }

  lemma OneClaim(rules: Rules, records: seq<TxtRecord>, r: TxtRecord)
    requires AtTop(records, r)
    ensures TopClaims(rules, records) == [CandidateOf(rules, r)] <==> forall other | AtTop(records, other) :: other == r
    ensures |TopClaims(rules, records)| == 1 ==> TopClaims(rules, records) == [CandidateOf(rules, r)]
  {
    hide CandidateOf, CandidateLess, TopClaims;
    TopClaimsMean(rules, records);
    var claims := TopClaims(rules, records);
    var mine := CandidateOf(rules, r);
    assert mine in claims;
    if claims == [mine] {
      forall other | AtTop(records, other) ensures other == r {
        assert CandidateOf(rules, other) in claims;
        CandidatesDistinguish(rules, other, r);
      }
    }
    if forall other | AtTop(records, other) :: other == r {
      assert forall c | c in claims :: c == mine;
      CandidateOrder();
      SortedSingleton(CandidateLess, claims, mine);
    }
  }

  /**
   The rule selects exactly when one (document, generation) pair holds the top non-deferred
   serial, and then selects that record; two records at one serial are equal when those pairs are.
   */
  lemma {:induction false} SelectedExactly(rules: Rules, raws: seq<string>, now: nat, r: TxtRecord)
    ensures ClassifySet(rules, raws, now).selected == Some(CandidateOf(rules, r)) <==>
            var records := Considered(rules, raws, now);
            AtTop(records, r) &&
            forall other | AtTop(records, other) :: other.document == r.document && other.generation == r.generation
  {
    hide CandidateOf, CandidateLess, TopClaims, Considered, Count;
    var records := Considered(rules, raws, now);
    var claims := TopClaims(rules, records);
    TopClaimsMean(rules, records);
    if AtTop(records, r) {
      OneClaim(rules, records, r);
      assert forall other | AtTop(records, other) :: other.serial == r.serial;
    }
    if claims == [CandidateOf(rules, r)] {
      assert CandidateOf(rules, r) in claims;
      var other :| AtTop(records, other) && CandidateOf(rules, r) == CandidateOf(rules, other);
      CandidatesDistinguish(rules, r, other);
    }
  }

  /**
   Otherwise it reports exactly the distinct claims at the top, each once, in order; nothing
   is contested only when nothing is considered or one claim is selected.
   */
  lemma ContestedExactly(rules: Rules, raws: seq<string>, now: nat)
    ensures var c := ClassifySet(rules, raws, now);
            var records := Considered(rules, raws, now);
            && StrictlySorted(CandidateLess, c.contested)
            && (c.selected.Some? ==> c.contested == [])
            && (c.selected == None && c.contested == [] <==> records == [])
            && (c.selected == None ==>
                forall x :: x in c.contested <==> exists r :: AtTop(records, r) && x == CandidateOf(rules, r))
            && (c.contested != [] <==> exists r, other :: AtTop(records, r) && AtTop(records, other) && r != other)
  {
    hide CandidateOf, CandidateLess, TopClaims, Considered, Count;
    var c := ClassifySet(rules, raws, now);
    var records := Considered(rules, raws, now);
    TopClaimsMean(rules, records);
    var claims := TopClaims(rules, records);
    if claims != [] {
      assert claims[0] in claims;
      var r :| AtTop(records, r) && claims[0] == CandidateOf(rules, r);
      OneClaim(rules, records, r);
    }
  }

  // ----- publishing -----

  /** The highest serial published so far. */
  function Highest(records: seq<TxtRecord>): Option<nat> {
    if records == [] then None else Some(TopSerial(records))
  }

  /** A publishing run: each record minted by `Next` from the highest serial so far and some clock. */
  ghost predicate IsRun(rules: Rules, clocks: seq<nat>, records: seq<TxtRecord>) {
    && |clocks| == |records|
    && (forall i | 0 <= i < |records| :: ValidTxt(rules.canonical, records[i]) && clocks[i] < U64_LIMIT)
    && (forall i | 0 <= i < |records| :: Minted(records[..i], clocks[i], records[i].serial))
  }

  ghost predicate Minted(before: seq<TxtRecord>, clock: nat, serial: nat) {
    && clock < U64_LIMIT && (before != [] ==> TopSerial(before) < U64_LIMIT)
    && Next(Highest(before), clock) == Some(serial)
  }

  /** However the clocks move, serials strictly increase and none lags its clock. */
  lemma RunIncreases(rules: Rules, clocks: seq<nat>, records: seq<TxtRecord>)
    requires IsRun(rules, clocks, records)
    ensures forall i, j | 0 <= i < j < |records| :: records[i].serial < records[j].serial
    ensures forall i | 0 <= i < |records| :: records[i].serial >= clocks[i]
  {
    hide ValidTxt, Minted;
    forall i, j | 0 <= i < j < |records|
      ensures records[i].serial < records[j].serial
    {
      MintedMeans(records[..j], clocks[j], records[j].serial);
      assert records[..j][i] == records[i];
    }
    forall i | 0 <= i < |records|
      ensures records[i].serial >= clocks[i]
    {
      MintedMeans(records[..i], clocks[i], records[i].serial);
    }
  }

  lemma MintedMeans(before: seq<TxtRecord>, clock: nat, serial: nat)
    requires Minted(before, clock, serial)
    ensures serial >= clock && forall r | r in before :: r.serial < serial
  {
  }

  ghost predicate Follows(last: Option<nat>, clock: nat, serial: nat) {
    clock <= serial && (last.Some? ==> last.value < serial)
  }

  /**
   Minting gives the least serial that exceeds the last and does not lag the clock. It stops in
   one case only: the last serial is already the largest u64.
   */
  lemma MintingStopsAtTheTop(last: Option<nat>, clock: nat)
    requires clock < U64_LIMIT && (last.Some? ==> last.value < U64_LIMIT)
    ensures Next(last, clock) == None <==> last == Some(U64_LIMIT - 1)
    ensures Next(last, clock).Some? ==>
              var n := Next(last, clock).value;
              n < U64_LIMIT && Follows(last, clock, n) && forall m: nat | Follows(last, clock, m) :: n <= m
  {
  }

  function Published(records: seq<TxtRecord>): (raws: seq<string>)
    ensures |raws| == |records| && forall i | 0 <= i < |raws| :: raws[i] == Display(records[i])
  {
    seq(|records|, i requires 0 <= i < |records| => Display(records[i]))
  }

  lemma {:induction false} PublishedConsidered(rules: Rules, clocks: seq<nat>, records: seq<TxtRecord>, now: nat)
    requires IsRun(rules, clocks, records)
    ensures forall r :: r in Considered(rules, Published(records), now) <==> r in records && !IsDeferred(rules, r, now)
  {
    hide Display, ValidTxt, Classify, IsDeferred, Minted;
    var raws := Published(records);
    ConsideredMeans(rules, raws, now);
    forall i | 0 <= i < |records| ensures Classify(rules.canonical, raws[i]) == Ok(Binding(records[i])) {
      DisplayParses(rules.canonical, records[i]);
    }
    forall r ensures r in Considered(rules, raws, now) <==> r in records && !IsDeferred(rules, r, now) {
      if r in records && !IsDeferred(rules, r, now) {
        var i :| 0 <= i < |records| && records[i] == r;
        assert raws[i] in raws && Dispose(rules, raws[i], now) == Consider(r);
      }
      if r in Considered(rules, raws, now) {
        var raw :| raw in raws && Dispose(rules, raw, now) == Consider(r);
        var i :| 0 <= i < |raws| && raws[i] == raw;
      }
    }
  }

  /**
   Over a publishing run, at any instant, the rule selects the newest record that is not
   deferred, uncontested; in particular the newest of all whenever it is not deferred.
   */
  lemma {:induction false} NewestIsSelected(rules: Rules, clocks: seq<nat>, records: seq<TxtRecord>, now: nat, k: nat)
    requires IsRun(rules, clocks, records) && k < |records|
    requires !IsDeferred(rules, records[k], now)
    requires forall j | k < j < |records| :: IsDeferred(rules, records[j], now)
    ensures var c := ClassifySet(rules, Published(records), now);
            c.selected == Some(CandidateOf(rules, records[k])) && c.contested == []
  {
    hide CandidateOf, CandidateLess, TopClaims, Considered, Count, Display, IsRun, IsDeferred;
    var raws := Published(records);
    var kept := Considered(rules, raws, now);
    RunIncreases(rules, clocks, records);
    PublishedConsidered(rules, clocks, records, now);
    var newest := records[k];
    assert newest in kept;
    forall other | other in kept
      ensures other.serial <= newest.serial && (other.serial == newest.serial ==> other == newest)
    {
      var i :| 0 <= i < |records| && records[i] == other;
      assert i <= k;
    }
    SelectedExactly(rules, raws, now, newest);
  }

  /**
   The skew bound in milliseconds. Below 2^64 a record is set aside exactly when its serial is more
   than the bound above the clock read as milliseconds; past that, saturation sets nothing aside.
   */
  lemma DeferredExactly(rules: Rules, r: TxtRecord, now: nat)
    requires r.serial < U64_LIMIT
    ensures now * 1000 + rules.skewMs < U64_LIMIT ==>
              (IsDeferred(rules, r, now) <==> r.serial - now * 1000 > rules.skewMs)
    ensures now * 1000 + rules.skewMs >= U64_LIMIT ==> !IsDeferred(rules, r, now)
  {
  }

  /** A publisher whose newest serial is within the bound of the clock has its newest record selected. */
  lemma {:induction false} CurrentIsSelected(rules: Rules, clocks: seq<nat>, records: seq<TxtRecord>, now: nat)
    requires IsRun(rules, clocks, records) && records != []
    requires records[|records| - 1].serial <= now * 1000 + rules.skewMs
    ensures var c := ClassifySet(rules, Published(records), now);
            && c.selected == Some(CandidateOf(rules, records[|records| - 1])) && c.contested == []
            && c.deferred == 0
  {
    hide IsDeferred, ClassifySet, CandidateOf, Published, Minted;
    var last := |records| - 1;
    RunIncreases(rules, clocks, records);
    forall i | 0 <= i <= last ensures !IsDeferred(rules, records[i], now) {
      assert ValidTxt(rules.canonical, records[i]) && records[i].serial <= records[last].serial;
      DeferredExactly(rules, records[i], now);
    }
    NewestIsSelected(rules, clocks, records, now, last);
    NoneDeferred(rules, clocks, records, now);
  }

  lemma {:induction false} NoneDeferred(rules: Rules, clocks: seq<nat>, records: seq<TxtRecord>, now: nat)
    requires IsRun(rules, clocks, records) && forall i | 0 <= i < |records| :: !IsDeferred(rules, records[i], now)
    ensures ClassifySet(rules, Published(records), now).deferred == 0
  {
    hide Display, Classify, IsDeferred, Minted, TopClaims, Considered, CandidateOf;
    var raws := Published(records);
    forall i | 0 <= i < |raws| ensures Dispose(rules, raws[i], now) != Defer {
      DisplayParses(rules.canonical, records[i]);
    }
    NoCount(rules, raws, now, Defer);
  }

  lemma {:induction false} NoCount(rules: Rules, raws: seq<string>, now: nat, d: Disposition)
    requires forall i | 0 <= i < |raws| :: Dispose(rules, raws[i], now) != d
    ensures Count(rules, raws, now, d) == 0
  {
    hide Dispose;
    if raws != [] {
      NoCount(rules, raws[1..], now, d);
    }
  }

  /** Deferral is a matter of time: it sets aside the newest part of a run, and later clocks only lift it. */
  lemma {:induction false} DeferralIsASuffix(rules: Rules, clocks: seq<nat>, records: seq<TxtRecord>, now: nat,
                                             later: nat, i: nat, j: nat)
    requires IsRun(rules, clocks, records) && i <= j < |records| && now <= later
    ensures IsDeferred(rules, records[i], later) ==> IsDeferred(rules, records[j], now)
  {
    hide IsRun, Minted;
    RunIncreases(rules, clocks, records);
  }
}
