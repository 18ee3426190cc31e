/**
 The petname store: writes over the user's own namestore, and the divergence join
 (onomancy_automerge/src/petname.rs). Whether the substrate commits a transaction is an
 input; a transaction it refuses changes nothing.
 */
module Petnames {
  import opened Wrappers
  import opened Wire
  import opened Ordering
  import opened Segments
  import opened Anchors
  import opened Namestores

  datatype WriteError = Substrate | MissingEdge | EmptyPath

  type Written = Result<(), WriteError>

  // ----- the writes, as functions of the root map -----

  function SpellReference(a: AnchorCodec, target: Doc): Value {
    Scalar(SCHEME_PREFIX + a.show(target))
  }

  /** Writing a key supersedes whatever a merge left there. */
  function Pinned(a: AnchorCodec, root: Root, path: Path, target: Doc): Root
    requires path != []
  {
    root[PathKey(path).value := [SpellReference(a, target)]]
  }

  function Unpinned(root: Root, path: Path): Root
    requires path != []
  {
    root - {PathKey(path).value}
  }

  function PinStep(a: AnchorCodec, root: Root, path: Path, target: Doc, commits: bool): (Root, Written) {
    if path == [] then (root, Err(EmptyPath))
    else if !commits then (root, Err(Substrate))
    else (Pinned(a, root, path, target), Ok(()))
  }

  function UnpinStep(a: AnchorCodec, root: Root, path: Path, commits: bool): (Root, Written) {
    if path == [] then (root, Err(EmptyPath))
    else if Reference(a, root, path) == None then (root, Err(MissingEdge))
    else if !commits then (root, Err(Substrate))
    else (Unpinned(root, path), Ok(()))
  }

  /** Two transactions, not one: the pin may commit and the unpin not. */
  function RenameStep(a: AnchorCodec, root: Root, from: Path, to: Path, pinCommits: bool, unpinCommits: bool): (Root,
                      Written) {
    match Reference(a, root, from)
    case None => (root, Err(MissingEdge))
    case Some(target) =>
      if from == to then (root, Ok(()))
      else
        var (pinned, r) := PinStep(a, root, to, target, pinCommits);
        if r.Err? then (pinned, r) else UnpinStep(a, pinned, from, unpinCommits)
  }

  // ----- the store -----

  class PetnameStore {
    const anchors: AnchorCodec
    var root: Root

    constructor (anchors: AnchorCodec, root: Root)
      ensures this.anchors == anchors && this.root == root
    {
      this.anchors := anchors;
      this.root := root;
    }

    method Pin(path: Path, target: Doc, commits: bool) returns (r: Written)
      modifies this`root
      ensures (root, r) == PinStep(anchors, old(root), path, target, commits)
    {
      var key := JoinPath(path);
      if key == None {
        return Err(EmptyPath);
      }
      if !commits {
        return Err(Substrate);
      }
      root := root[key.value := [Scalar(SCHEME_PREFIX + anchors.show(target))]];
      return Ok(());
    }

    method ExistingEdge(path: Path) returns (r: Result<Doc, WriteError>)
      ensures r == match Reference(anchors, root, path) case Some(target) => Ok(target) case None => Err(MissingEdge)
    {
      match Reference(anchors, root, path) {
        case Some(target) => return Ok(target);
        case None => return Err(MissingEdge);
      }
    }

    method Unpin(path: Path, commits: bool) returns (r: Written)
      modifies this`root
      ensures (root, r) == UnpinStep(anchors, old(root), path, commits)
    {
      var key := JoinPath(path);
      if key == None {
        return Err(EmptyPath);
      }
      var _ :- ExistingEdge(path);
      if !commits {
        return Err(Substrate);
      }
      root := root - {key.value};
      return Ok(());
    }

    method Rename(from: Path, to: Path, pinCommits: bool, unpinCommits: bool) returns (r: Written)
      modifies this`root
      ensures (root, r) == RenameStep(anchors, old(root), from, to, pinCommits, unpinCommits)
    {
      var target :- ExistingEdge(from);
      if from == to {
        return Ok(());
      }
      var _ :- Pin(to, target, pinCommits);
      r := Unpin(from, unpinCommits);
    }
  }

  // ----- what the writes do to names -----

  lemma SpelledReferenceParses(a: AnchorCodec, target: Doc)
    requires a.valid(target)
    ensures ParseBareReference(a, SpellReference(a, target)) == Some(target)
  {
    var text := SCHEME_PREFIX + a.show(target);
    assert text[..|SCHEME_PREFIX|] == SCHEME_PREFIX && text[|SCHEME_PREFIX|..] == a.show(target);
  }

  lemma ReferenceIsValid(a: AnchorCodec, root: Root, path: Path)
    ensures Reference(a, root, path).Some? ==> a.valid(Reference(a, root, path).value)
  {
  }

  /** A pin binds its own name and no other. */
  lemma {:induction false} PinBindsOneName(a: AnchorCodec, root: Root, path: Path, target: Doc, other: Path)
    requires path != [] && a.valid(target)
    ensures Reference(a, Pinned(a, root, path, target), other) ==
            if other == path then Some(target) else Reference(a, root, other)
  {
    hide ParseBareReference, SpellReference;
    SpelledReferenceParses(a, target);
    PathKeyInjective(path, other);
  }

  /** An unpin removes its own name and no other. */
  lemma {:induction false} UnpinRemovesOneName(a: AnchorCodec, root: Root, path: Path, other: Path)
    requires path != []
    ensures Reference(a, Unpinned(root, path), other) == if other == path then None else Reference(a, root, other)
  {
    hide ParseBareReference;
    PathKeyInjective(path, other);
  }

  /** What a rename leaves each name meaning, whichever of its transactions commit. */
  lemma {:induction false} RenameMeans(a: AnchorCodec, root: Root, from: Path, to: Path, pinCommits: bool,
                                       unpinCommits: bool, name: Path)
    ensures var target := Reference(a, root, from);
            var (after, r) := RenameStep(a, root, from, to, pinCommits, unpinCommits);
            && (r == Err(MissingEdge) <==> target == None)
            && (r == Err(EmptyPath) <==> target.Some? && to == [])
            && (r.Ok? <==> target.Some? && (from == to || (to != [] && pinCommits && unpinCommits)))
            && Reference(a, after, name) ==
               if target == None || from == to || to == [] || !pinCommits then Reference(a, root, name)
               else if name == to then target
               else if name == from && unpinCommits then None
               else Reference(a, root, name)
  {
    hide Reference, Pinned, Unpinned;
    if Reference(a, root, from).Some? {
      ReferenceIsValid(a, root, from);
      NoNameIsEmpty(a, root);
      if from != to && to != [] {
        var target := Reference(a, root, from).value;
        PinBindsOneName(a, root, to, target, name);
        PinBindsOneName(a, root, to, target, from);
        UnpinRemovesOneName(a, Pinned(a, root, to, target), from, name);
      }
    }
  }

  lemma NoNameIsEmpty(a: AnchorCodec, root: Root)
    ensures Reference(a, root, []) == None
  {
  }

  /** A rename that fails never loses the source edge. */
  lemma {:induction false} FailedRenameKeepsTheSource(a: AnchorCodec, root: Root, from: Path, to: Path,
                                                      pinCommits: bool, unpinCommits: bool)
    requires RenameStep(a, root, from, to, pinCommits, unpinCommits).1.Err?
    ensures Reference(a, RenameStep(a, root, from, to, pinCommits, unpinCommits).0, from) == Reference(a, root, from)
  {
    hide RenameStep, Reference;
    RenameMeans(a, root, from, to, pinCommits, unpinCommits, from);
  }

  // ----- the targets of edges -----

  ghost predicate IsTarget(a: AnchorCodec, root: Root, target: Doc) {
    exists name: Path :: Reference(a, root, name) == Some(target)
  }

  /** The documents some edge points at. */
  function Targets(a: AnchorCodec, root: Root): (targets: set<Doc>)
    ensures forall target :: target in targets <==> IsTarget(a, root, target)
  {
    var targets :=
      set key | key in root && IsPathKey(key) && TargetAt(a, root, key).Some? :: TargetAt(a, root, key).value;
    TargetsAreNamed(a, root, targets);
    targets
  }

  lemma TargetsAreNamed(a: AnchorCodec, root: Root, targets: set<Doc>)
    requires targets ==
             set key | key in root && IsPathKey(key) && TargetAt(a, root, key).Some? :: TargetAt(a, root, key).value
    ensures forall target :: target in targets <==> IsTarget(a, root, target)
  {
    hide IsPathKey, ParseBareReference;
    forall target ensures target in targets <==> IsTarget(a, root, target) {
      if target in targets {
        var key :| key in root && IsPathKey(key) && TargetAt(a, root, key) == Some(target);
        assert Reference(a, root, PathOf(key)) == Some(target);
      }
      if name: Path :| Reference(a, root, name) == Some(target) {
        SplitPathKey(name);
        var key := PathKey(name).value;
        assert key in root && TargetAt(a, root, key) == Some(target);
      }
    }
  }

  /** Another name than `but` points at `target`. */
  ghost predicate HeldElsewhere(a: AnchorCodec, root: Root, but: Path, target: Doc) {
    exists name: Path :: name != but && Reference(a, root, name) == Some(target)
  }

  /**
   A rename leaves the set of targets alone exactly when its destination held no edge, or
   one whose target another name holds too, or when it changed nothing.
   */
  lemma {:induction false} RenameKeepsTargets(a: AnchorCodec, root: Root, from: Path, to: Path, pinCommits: bool,
                                              unpinCommits: bool)
    ensures Targets(a, RenameStep(a, root, from, to, pinCommits, unpinCommits).0) == Targets(a, root) <==>
            || Reference(a, root, from) == None || from == to || to == [] || !pinCommits
            || Reference(a, root, to) == None
            || HeldElsewhere(a, root, to, Reference(a, root, to).value)
  {
    hide RenameStep, Reference, Targets;
    var after := RenameStep(a, root, from, to, pinCommits, unpinCommits).0;
    forall name: Path
      ensures Reference(a, after, name) ==
              if Reference(a, root, from) == None || from == to || to == [] || !pinCommits then Reference(a, root, name)
              else if name == to then Reference(a, root, from)
              else if name == from && unpinCommits then None
              else Reference(a, root, name)
    {
      RenameMeans(a, root, from, to, pinCommits, unpinCommits, name);
    }
    if Reference(a, root, from) == None || from == to || to == [] || !pinCommits {
      SameNamesSameTargets(a, root, after);
    } else {
      forall target ensures IsTarget(a, after, target) <==> HeldElsewhere(a, root, to, target) {
        MovedTargets(a, root, after, from, to, unpinCommits, target);
      }
      forall target ensures IsTarget(a, root, target) <==>
                            HeldElsewhere(a, root, to, target) || Reference(a, root, to) == Some(target) {
      }
    }
  }

  lemma SameNamesSameTargets(a: AnchorCodec, root: Root, after: Root)
    requires forall name: Path :: Reference(a, after, name) == Reference(a, root, name)
    ensures Targets(a, after) == Targets(a, root)
  {
    hide Reference, Targets;
    forall target ensures target in Targets(a, after) <==> target in Targets(a, root) {
      if name: Path :| Reference(a, root, name) == Some(target) {
        assert Reference(a, after, name) == Some(target);
      }
      if name: Path :| Reference(a, after, name) == Some(target) {
        assert Reference(a, root, name) == Some(target);
      }
    }
  }

  /** After a rename, the targets are those the names other than the destination had. */
  lemma {:induction false} MovedTargets(a: AnchorCodec, root: Root, after: Root, from: Path, to: Path, unpinned: bool,
                                        target: Doc)
    requires from != to && Reference(a, root, from).Some?
    requires forall name: Path :: Reference(a, after, name) ==
                                  if name == to then Reference(a, root, from)
                                  else if name == from && unpinned then None
                                  else Reference(a, root, name)
    ensures IsTarget(a, after, target) <==> HeldElsewhere(a, root, to, target)
  {
    hide Reference;
    if name: Path :| name != to && Reference(a, root, name) == Some(target) {
      assert Reference(a, after, if name == from then to else name) == Some(target);
    }
    if name: Path :| Reference(a, after, name) == Some(target) {
      assert Reference(a, root, if name == to then from else name) == Some(target);
    }
  }

  // ----- the divergence join -----

  datatype Claim = Claim(hostname: Bytes, document: Doc)

  function ClaimedBy(hostname: Bytes, claims: seq<Claim>, pinned: set<Doc>): (docs: seq<Doc>)
    ensures forall d :: d in docs <==> d in pinned && Claim(hostname, d) in claims
  {
    if claims == [] then []
    else
      var front, last := claims[..|claims| - 1], claims[|claims| - 1];
      assert claims == front + [last];
      var docs := ClaimedBy(hostname, front, pinned);
      if last.hostname == hostname && last.document in pinned && last.document !in docs then docs + [last.document]
      else docs
  }

  /** Per hostname, the claimed documents that are edge targets, sorted and without repetition. */
  function Pins(pinned: set<Doc>, claims: seq<Claim>): map<Bytes, seq<Doc>> {
    map c | c in claims && c.document in pinned ::
      c.hostname := SortDistinct(BytesLess, ClaimedBy(c.hostname, claims, pinned))
  }

  function EdgeTargets(edges: seq<(string, Doc)>): (targets: seq<Doc>)
    ensures |targets| == |edges| && forall i | 0 <= i < |targets| :: targets[i] == edges[i].1
  {
    seq(|edges|, i requires 0 <= i < |edges| => edges[i].1)
  }

  method JoinPins(edges: seq<(string, Doc)>, claims: seq<Claim>) returns (pins: map<Bytes, seq<Doc>>)
    ensures pins == Pins(set e | e in edges :: e.1, claims)
  {
    hide SortDistinct, BytesLess;
    var pinnedTargets := SortDistinct(BytesLess, EdgeTargets(edges));
    ghost var pinned := set e | e in edges :: e.1;
    assert forall d :: d in pinnedTargets <==> d in pinned by {
      forall d ensures d in EdgeTargets(edges) <==> d in pinned {
        if d in EdgeTargets(edges) {
          var i :| 0 <= i < |edges| && EdgeTargets(edges)[i] == d;
          assert edges[i] in edges;
        }
        if d in pinned {
          var i :| 0 <= i < |edges| && edges[i].1 == d;
          assert EdgeTargets(edges)[i] == d;
        }
      }
    }
    var found: map<Bytes, seq<Doc>> := map[];
    for i := 0 to |claims|
      invariant Joins(found, claims[..i], pinned)
    {
      var claim := claims[i];
      assert claims[..i] + [claim] == claims[..i + 1];
      JoinsStep(found, claims[..i], claim, pinned);
      if claim.document in pinnedTargets {
        var targets := Listed(found, claim.hostname);
        if claim.document !in targets {
          targets := targets + [claim.document];
        }
        found := found[claim.hostname := targets];
      }
    }
    assert claims[..|claims|] == claims;
    pins := map hostname | hostname in found :: SortDistinct(BytesLess, found[hostname]);
    JoinsAll(found, claims, pinned);
  }

  function Listed(found: map<Bytes, seq<Doc>>, hostname: Bytes): seq<Doc> {
    if hostname in found then found[hostname] else []
  }

  /** `found` is the join of `claims` before its lists are sorted. */
  ghost predicate Joins(found: map<Bytes, seq<Doc>>, claims: seq<Claim>, pinned: set<Doc>) {
    && (forall hostname :: Listed(found, hostname) == ClaimedBy(hostname, claims, pinned))
    && (forall hostname | hostname in found :: found[hostname] != [])
  }

  lemma {:induction false} ClaimedStep(hostname: Bytes, claims: seq<Claim>, claim: Claim, pinned: set<Doc>)
    ensures ClaimedBy(hostname, claims + [claim], pinned) ==
            var docs := ClaimedBy(hostname, claims, pinned);
            if claim.hostname == hostname && claim.document in pinned && claim.document !in docs
            then docs + [claim.document] else docs
  {
    assert (claims + [claim])[..|claims|] == claims;
  }

  lemma {:induction false} JoinsStep(found: map<Bytes, seq<Doc>>, claims: seq<Claim>, claim: Claim, pinned: set<Doc>)
    requires Joins(found, claims, pinned)
    ensures var targets := Listed(found, claim.hostname);
            var more := if claim.document in targets then targets else targets + [claim.document];
            Joins(if claim.document !in pinned then found else found[claim.hostname := more], claims + [claim], pinned)
  {
    hide ClaimedBy;
    forall hostname
      ensures ClaimedBy(hostname, claims + [claim], pinned) ==
              var docs := ClaimedBy(hostname, claims, pinned);
              if claim.hostname == hostname && claim.document in pinned && claim.document !in docs
              then docs + [claim.document] else docs
    {
      ClaimedStep(hostname, claims, claim, pinned);
    }
  }

  lemma JoinsAll(found: map<Bytes, seq<Doc>>, claims: seq<Claim>, pinned: set<Doc>)
    requires Joins(found, claims, pinned)
    ensures Pins(pinned, claims) == map hostname | hostname in found :: SortDistinct(BytesLess, found[hostname])
  {
    hide SortDistinct, BytesLess;
    forall hostname ensures hostname in found <==> hostname in Pins(pinned, claims) {
      var docs := ClaimedBy(hostname, claims, pinned);
      assert Listed(found, hostname) == docs;
      if hostname in found {
        assert docs[0] in docs;
        assert Claim(hostname, docs[0]) in claims;
      }
      if c :| c in claims && c.document in pinned && c.hostname == hostname {
        assert Claim(hostname, c.document) in claims;
        assert c.document in docs;
      }
    }
  }

  /** The join, on its own terms: which hostnames it holds, and exactly what it lists for each. */
  lemma PinsMean(pinned: set<Doc>, claims: seq<Claim>, hostname: Bytes)
    ensures hostname in Pins(pinned, claims) <==> exists d :: d in pinned && Claim(hostname, d) in claims
    ensures hostname in Pins(pinned, claims) ==>
              var docs := Pins(pinned, claims)[hostname];
              StrictlySorted(BytesLess, docs) && forall d :: d in docs <==> d in pinned && Claim(hostname, d) in claims
  {
    hide BytesLess, SortDistinct, StrictTotal;
    BytesOrder();
    SortDistinctSorted(BytesLess, ClaimedBy(hostname, claims, pinned));
  }

  /** Claims are a set to the join: merge order does not matter. */
  lemma PinsIgnoreClaimOrder(pinned: set<Doc>, claims: seq<Claim>, others: seq<Claim>)
    requires forall c :: c in claims <==> c in others
    ensures Pins(pinned, claims) == Pins(pinned, others)
  {
    BytesOrder();
    hide BytesLess, StrictTotal, SortDistinct;
    forall hostname
      ensures SortDistinct(BytesLess, ClaimedBy(hostname, claims, pinned)) ==
              SortDistinct(BytesLess, ClaimedBy(hostname, others, pinned))
    {
      SortDistinctBySet(BytesLess, ClaimedBy(hostname, claims, pinned), ClaimedBy(hostname, others, pinned));
    }
  }

  /** The edges enumeration finds point at exactly the targets names resolve to. */
  lemma EdgesReachTheTargets(a: AnchorCodec, root: Root, keys: seq<string>)
    requires WellFormed(root) && Enumerates(keys, root)
    ensures (set e | e in ReadKeys(a, root, keys).edges :: e.1) == Targets(a, root)
  {
    hide IsPathKey, ParseBareReference, Reference;
    var edges := ReadKeys(a, root, keys).edges;
    EdgesRead(a, root, keys);
    forall target ensures target in (set e | e in edges :: e.1) <==> IsTarget(a, root, target) {
      if target in (set e | e in edges :: e.1) {
        var e :| e in edges && e.1 == target;
        assert (e.0, target) in edges;
        EdgesAgreeWithReference(a, root, keys, PathOf(e.0), target);
      }
      if name: Path :| Reference(a, root, name) == Some(target) {
        EdgesAgreeWithReference(a, root, keys, name, target);
        assert (PathKey(name).value, target) in edges;
      }
    }
  }

  lemma NothingNamed(a: AnchorCodec, name: Path)
    ensures Reference(a, map[], name) == None
  {
  }

  /** Two labels, each the only one for its document. */
  function TwoLabels(a: AnchorCodec, kept: Doc, lost: Doc): Root {
    map["a" := [SpellReference(a, kept)], "b" := [SpellReference(a, lost)]]
  }

  const FIRST: Path := ["a"]
  const SECOND: Path := ["b"]

  lemma TwoLabelsMean(a: AnchorCodec, kept: Doc, lost: Doc)
    requires a.valid(kept) && a.valid(lost)
    ensures FIRST != SECOND
    ensures forall name: Path :: Reference(a, TwoLabels(a, kept, lost), name) ==
              if name == SECOND then Some(lost) else if name == FIRST then Some(kept) else None
  {
    hide Reference, SpellReference;
    assert FIRST[0] != SECOND[0];
    assert PathKey(FIRST) == Some("a") && PathKey(SECOND) == Some("b");
    var one := Pinned(a, map[], FIRST, kept);
    assert TwoLabels(a, kept, lost) == Pinned(a, one, SECOND, lost);
    forall name: Path
      ensures Reference(a, Pinned(a, one, SECOND, lost), name) ==
              if name == SECOND then Some(lost) else if name == FIRST then Some(kept) else None
    {
      NothingNamed(a, name);
      PinBindsOneName(a, map[], FIRST, kept, name);
      PinBindsOneName(a, one, SECOND, lost, name);
    }
  }

  /** A rename can drop a target, and with it a pin: from one label onto another document's only label. */
  lemma {:induction false} RenameDropsATarget(a: AnchorCodec, kept: Doc, lost: Doc, hostname: Bytes)
    requires a.valid(kept) && a.valid(lost) && kept != lost
    ensures var before := TwoLabels(a, kept, lost);
            var after := RenameStep(a, before, FIRST, SECOND, true, true).0;
            && Targets(a, before) == {kept, lost} && Targets(a, after) == {kept}
            && hostname in Pins(Targets(a, before), [Claim(hostname, lost)])
            && hostname !in Pins(Targets(a, after), [Claim(hostname, lost)])
  {
    hide Reference, TwoLabels, RenameStep, Targets;
    var before := TwoLabels(a, kept, lost);
    var after := RenameStep(a, before, FIRST, SECOND, true, true).0;
    TwoLabelsMean(a, kept, lost);
    forall name: Path ensures Reference(a, after, name) == if name == SECOND then Some(kept) else None {
      RenameMeans(a, before, FIRST, SECOND, true, true, name);
    }
    assert Reference(a, before, FIRST) == Some(kept) && Reference(a, before, SECOND) == Some(lost);
    assert Reference(a, after, SECOND) == Some(kept);
    assert Targets(a, before) == {kept, lost} && Targets(a, after) == {kept};
    PinsMean({kept, lost}, [Claim(hostname, lost)], hostname);
    PinsMean({kept}, [Claim(hostname, lost)], hostname);
  }

  /** A codec and two documents to which the above applies. */
  lemma RenameExample()
    ensures var a: AnchorCodec := SomeAnchors();
            var before := TwoLabels(a, [1], [2]);
            && Targets(a, before) == {[1], [2]}
            && Targets(a, RenameStep(a, before, FIRST, SECOND, true, true).0) == {[1]}
  {
    hide Targets, RenameStep, TwoLabels, LawfulAnchors;
    assert [1 as byte][0] != [2 as byte][0];
    RenameDropsATarget(SomeAnchors(), [1], [2], []);
  }

  // ----- runs of renames -----

  datatype RenameCall = RenameCall(from: Path, to: Path, pinCommits: bool, unpinCommits: bool)

  function RenameAll(a: AnchorCodec, root: Root, calls: seq<RenameCall>): Root
    decreases |calls|
  {
    if calls == [] then root
    else
      var c := calls[0];
      RenameAll(a, RenameStep(a, root, c.from, c.to, c.pinCommits, c.unpinCommits).0, calls[1..])
  }

  /** The last call of a run works on what the calls before it left. */
  lemma {:induction false} RenameLast(a: AnchorCodec, root: Root, calls: seq<RenameCall>, c: RenameCall)
    ensures RenameAll(a, root, calls + [c])
            == RenameStep(a, RenameAll(a, root, calls), c.from, c.to, c.pinCommits, c.unpinCommits).0
    decreases |calls|
  {
    hide RenameStep;
    if calls == [] {
      assert [c][1..] == [];
    } else {
      var first := calls[0];
      var after := RenameStep(a, root, first.from, first.to, first.pinCommits, first.unpinCommits).0;
      assert (calls + [c])[1..] == calls[1..] + [c];
      RenameLast(a, after, calls[1..], c);
    }
  }

  /** Each call finds no edge at its destination, or renames a label to itself. */
  ghost predicate DestinationsFree(a: AnchorCodec, root: Root, calls: seq<RenameCall>)
    decreases |calls|
  {
    calls == [] ||
    (var c := calls[0];
     && (c.from == c.to || Reference(a, root, c.to) == None)
     && DestinationsFree(a, RenameStep(a, root, c.from, c.to, c.pinCommits, c.unpinCommits).0, calls[1..]))
  }

  /** No run of renames to free labels, whatever commits and whatever fails, moves the divergence join. */
  lemma {:induction false} RenamesKeepPins(a: AnchorCodec, root: Root, calls: seq<RenameCall>, claims: seq<Claim>)
    requires DestinationsFree(a, root, calls)
    ensures Targets(a, RenameAll(a, root, calls)) == Targets(a, root)
    ensures Pins(Targets(a, RenameAll(a, root, calls)), claims) == Pins(Targets(a, root), claims)
    decreases |calls|
  {
    hide RenameStep, Reference, Targets, Pins;
    if calls != [] {
      var c := calls[0];
      RenameKeepsTargets(a, root, c.from, c.to, c.pinCommits, c.unpinCommits);
      RenamesKeepPins(a, RenameStep(a, root, c.from, c.to, c.pinCommits, c.unpinCommits).0, calls[1..], claims);
    }
  }
}
