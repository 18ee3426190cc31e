/**
 Certificates held in a document at the reserved key (onomancy_automerge/src/certificates.rs).
 As elsewhere, whether the substrate commits a transaction is an input.
 */
module CertificateLists {
  import opened Wrappers
  import opened Wire
  import opened Segments
  import opened Anchors
  import opened Namestores
  import opened SignedUnits
  import opened Bindings
  import opened Certificates

  const CERTIFICATES_KEY: string := ".well-known/onomancy/certificates"

  datatype MalformedLocation = NotAListOrReference | SecondHop(target: Doc)

  datatype Located = Absent | Inline(entries: seq<Bytes>) | Elsewhere(target: Doc)

  datatype PutError = StoredElsewhere(target: Doc) | Malformed(location: MalformedLocation) | Transaction

  // ----- reading -----

  /** The byte entries of a list, in order, others skipped. */
  function ByteEntries(items: seq<Item>): (entries: seq<Bytes>)
    ensures |entries| <= |items|
  {
    if items == [] then []
    else match items[0]
         case Blob(bytes) => [bytes] + ByteEntries(items[1..])
         case NotBytes => ByteEntries(items[1..])
  }

  function Locate(a: AnchorCodec, root: Root): Result<Located, MalformedLocation> {
    match Get(root, CERTIFICATES_KEY)
    case None => Ok(Absent)
    case Some(value) =>
      match ParseBareReference(a, value)
      case Some(target) => Ok(Elsewhere(target))
      case None =>
        match value
        case ListObject(items) => Ok(Inline(ByteEntries(items)))
        case _ => Err(NotAListOrReference)
  }

  type Held = map<Doc, Root>

  /** Every certificate for an anchor, following at most one reference. */
  function CertificatesFor(a: AnchorCodec, held: Held, anchor: Doc): Result<seq<Bytes>, MalformedLocation> {
    if anchor !in held then Ok([])
    else
      var located :- Locate(a, held[anchor]);
      match located
      case Absent => Ok([])
      case Inline(entries) => Ok(entries)
      case Elsewhere(target) =>
        if target !in held then Ok([])
        else
          var beyond :- Locate(a, held[target]);
          match beyond
          case Absent => Ok([])
          case Inline(entries) => Ok(entries)
          case Elsewhere(_) => Err(SecondHop(target))
  }

  /** Nothing past the first reference is read: two stores that agree that far give the same answer. */
  lemma {:induction false} OneHopOnly(a: AnchorCodec, held: Held, other: Held, anchor: Doc)
    requires anchor in held <==> anchor in other
    requires anchor in held ==> held[anchor] == other[anchor]
    requires forall target | anchor in held && Locate(a, held[anchor]) == Ok(Elsewhere(target)) ::
               (target in held <==> target in other) && (target in held ==> held[target] == other[target])
    ensures CertificatesFor(a, held, anchor) == CertificatesFor(a, other, anchor)
    ensures forall target ::
              CertificatesFor(a, held, anchor) == Err(SecondHop(target)) <==>
              && anchor in held && Locate(a, held[anchor]) == Ok(Elsewhere(target))
              && target in held && Locate(a, held[target]).Ok? && Locate(a, held[target]).value.Elsewhere?
  {
    hide ParseBareReference, ByteEntries;
  }

  // ----- writing -----

  /** A stored entry is this certificate: it decodes, to the same fields and signature. */
  predicate Is(s: Suite, stored: Bytes, signed: Signed<Binding>) {
    DecodeCertificate(s, stored).Ok? && DecodeCertificate(s, stored).value.signed == signed
  }

  /** The first entry that is this certificate. */
  function Position(s: Suite, entries: seq<Bytes>, signed: Signed<Binding>): (r: Option<nat>)
    ensures r.Some? ==> r.value < |entries|
  {
    if entries == [] then None
    else if Is(s, entries[0], signed) then Some(0)
    else match Position(s, entries[1..], signed)
         case Some(i) => Some(i + 1)
         case None => None
  }

  /** The position counts byte entries; the write lands at that index of the whole list. */
  function PutItems(s: Suite, items: seq<Item>, c: Certificate): seq<Item> {
    match Position(s, ByteEntries(items), c.signed)
    case Some(i) => items[i := Blob(EncodeCertificate(s, c))]
    case None => items + [Blob(EncodeCertificate(s, c))]
  }

  /** The list at the reserved key, or the empty one a write creates there. */
  function HeldItems(root: Root): seq<Item> {
    match Get(root, CERTIFICATES_KEY)
    case Some(ListObject(items)) => items
    case _ => []
  }

  /** The values a merge left beside that list, if it was there. */
  function BesideList(root: Root): seq<Value> {
    match Get(root, CERTIFICATES_KEY)
    case Some(ListObject(_)) => root[CERTIFICATES_KEY][..|root[CERTIFICATES_KEY]| - 1]
    case _ => []
  }

  function PutRoot(s: Suite, root: Root, c: Certificate): Root {
    root[CERTIFICATES_KEY := BesideList(root) + [ListObject(PutItems(s, HeldItems(root), c))]]
  }

  function PutStep(s: Suite, a: AnchorCodec, root: Root, c: Certificate, commits: bool): (Root, Result<(), PutError>) {
    match Locate(a, root)
    case Err(e) => (root, Err(Malformed(e)))
    case Ok(Elsewhere(target)) => (root, Err(StoredElsewhere(target)))
    case _ => if commits then (PutRoot(s, root, c), Ok(())) else (root, Err(Transaction))
  }

  class CertificateDocument {
    var root: Root

    constructor (root: Root)
      ensures this.root == root
    {
      this.root := root;
    }

    method Put(s: Suite, a: AnchorCodec, c: Certificate, commits: bool) returns (r: Result<(), PutError>)
      modifies this`root
      ensures (root, r) == PutStep(s, a, old(root), c, commits)
    {
      hide EncodeSigned, WriteAttached, Is, ParseBareReference;
      var replacing: Option<nat> := None;
      match Locate(a, root) {
        case Err(e) => return Err(Malformed(e));
        case Ok(Elsewhere(target)) => return Err(StoredElsewhere(target));
        case Ok(Absent) =>
        case Ok(Inline(entries)) => replacing := Position(s, entries, c.signed);
      }
      var encoded := EncodeCertificateUnit(s, c.signed, c.attached);
      if !commits {
        return Err(Transaction);
      }
      var items, beside := HeldItems(root), BesideList(root);
      match replacing {
        case Some(index) => items := items[index := Blob(encoded)];
        case None => items := items + [Blob(encoded)];
      }
      root := root[CERTIFICATES_KEY := beside + [ListObject(items)]];
      return Ok(());
    }
  }

  // ----- when a write replaces what it should -----

  /** Item `k` is a stored copy of the certificate with this signed part. */
  ghost predicate Holds(s: Suite, items: seq<Item>, k: nat, signed: Signed<Binding>) {
    k < |items| && items[k].Blob? && Is(s, items[k].bytes, signed)
  }

  ghost predicate Stored(s: Suite, items: seq<Item>, signed: Signed<Binding>) {
    exists k: nat :: Holds(s, items, k, signed)
  }

  /** Item `j` is the first that is this certificate. */
  ghost predicate FirstMatch(s: Suite, items: seq<Item>, signed: Signed<Binding>, j: nat) {
    Holds(s, items, j, signed) && forall k: nat | k < j :: !Holds(s, items, k, signed)
  }

  /** How many byte entries stand before item `j`. */
  function BytesBefore(items: seq<Item>, j: nat): (n: nat)
    requires j <= |items|
    ensures n <= j
    ensures n == j <==> forall k | 0 <= k < j :: items[k].Blob?
    decreases j
  {
    if j == 0 then 0 else BytesBefore(items, j - 1) + if items[j - 1].Blob? then 1 else 0
  }

  lemma {:induction false} BytesBeforeTail(items: seq<Item>, j: nat)
    requires 1 <= j <= |items|
    ensures BytesBefore(items, j) == BytesBefore(items[1..], j - 1) + if items[0].Blob? then 1 else 0
    decreases j
  {
    if j > 1 {
      BytesBeforeTail(items, j - 1);
    }
  }

  lemma {:induction false} HoldsInTail(s: Suite, items: seq<Item>, k: nat, signed: Signed<Binding>)
    requires items != []
    ensures Holds(s, items[1..], k, signed) <==> Holds(s, items, k + 1, signed)
  {
    hide Is;
  }

  lemma {:induction false} PositionCountsBytes(s: Suite, items: seq<Item>, signed: Signed<Binding>)
    ensures !Stored(s, items, signed) ==> Position(s, ByteEntries(items), signed) == None
    ensures forall j: nat | FirstMatch(s, items, signed, j) ::
              Position(s, ByteEntries(items), signed) == Some(BytesBefore(items, j))
  {
    hide Is;
    if items != [] {
      var tail := items[1..];
      PositionCountsBytes(s, tail, signed);
      forall k: nat ensures Holds(s, tail, k, signed) <==> Holds(s, items, k + 1, signed) {
        HoldsInTail(s, items, k, signed);
      }
      assert items[0].Blob? && Is(s, items[0].bytes, signed) <==> Holds(s, items, 0, signed);
      forall j: nat | FirstMatch(s, items, signed, j)
        ensures Position(s, ByteEntries(items), signed) == Some(BytesBefore(items, j))
      {
        if j > 0 {
          BytesBeforeTail(items, j);
          assert FirstMatch(s, tail, signed, j - 1);
        }
      }
    }
  }

  lemma OwnEncodingIs(s: Suite, c: Certificate)
    requires ValidCertificate(s, c)
    ensures Is(s, EncodeCertificate(s, c), c.signed)
  {
    CertificateRoundTrip(s, c);
  }

  /**
   A write over a stored copy replaces that copy and touches nothing else exactly when every
   item before the copy is a byte value. With no stored copy it always appends.
   */
  lemma {:induction false} ReplacesExactly(s: Suite, items: seq<Item>, c: Certificate, j: nat)
    requires ValidCertificate(s, c)
    ensures !Stored(s, items, c.signed) ==> PutItems(s, items, c) == items + [Blob(EncodeCertificate(s, c))]
    ensures FirstMatch(s, items, c.signed, j) ==>
              (PutItems(s, items, c) == items[j := Blob(EncodeCertificate(s, c))] <==>
               forall k | 0 <= k < j :: items[k].Blob?)
  {
    hide Is, EncodeCertificate, ValidCertificate;
    PositionCountsBytes(s, items, c.signed);
    OwnEncodingIs(s, c);
    var copy := Blob(EncodeCertificate(s, c));
    if FirstMatch(s, items, c.signed, j) {
      var i := BytesBefore(items, j);
      if i < j {
        assert !Holds(s, items, i, c.signed);
        assert items[i := copy][i] == copy && items[j := copy][i] == items[i];
      }
    }
  }

  /**
   It does go wrong: behind one entry that is not a byte value, rewriting a stored certificate
   overwrites that entry and leaves the list holding the certificate twice.
   */
  lemma ForeignEntryIsOverwritten(s: Suite, c: Certificate)
    requires ValidCertificate(s, c)
    ensures var copy := Blob(EncodeCertificate(s, c));
            PutItems(s, [NotBytes, copy], c) == [copy, copy] && !AtMostOneEach(s, PutItems(s, [NotBytes, copy], c))
  {
    hide EncodeCertificate, ValidCertificate, Is;
    OwnEncodingIs(s, c);
    var bytes := EncodeCertificate(s, c);
    var items := [NotBytes, Blob(bytes)];
    assert Holds(s, items, 1, c.signed) && !Holds(s, items, 0, c.signed);
    assert FirstMatch(s, items, c.signed, 1) && BytesBefore(items, 1) == 0;
    PositionCountsBytes(s, items, c.signed);
    assert PutItems(s, items, c) == [Blob(bytes), Blob(bytes)];
    assert Holds(s, [Blob(bytes), Blob(bytes)], 0, c.signed) && Holds(s, [Blob(bytes), Blob(bytes)], 1, c.signed);
  }

  // ----- runs over lists of byte entries -----

  ghost predicate AllBytes(items: seq<Item>) {
    forall k | 0 <= k < |items| :: items[k].Blob?
  }

  ghost predicate AtMostOneEach(s: Suite, items: seq<Item>) {
    forall i: nat, j: nat, signed | Holds(s, items, i, signed) && Holds(s, items, j, signed) :: i == j
  }

  lemma {:induction false} FindFirst(s: Suite, items: seq<Item>, signed: Signed<Binding>, n: nat) returns (j: nat)
    requires n < |items| && Holds(s, items, n, signed)
    ensures FirstMatch(s, items, signed, j)
    decreases n
  {
    hide Is;
    if k: nat :| k < n && Holds(s, items, k, signed) {
      j := FindFirst(s, items, signed, k);
    } else {
      assert forall k: nat | k < n :: !Holds(s, items, k, signed);
      j := n;
    }
  }

  /**
   One write to a list of byte entries: it stores the given bytes in the certificate's one
   place, changes no other entry, and lengthens the list only for a new signed part.
   */
  lemma {:induction false} PutToBytes(s: Suite, items: seq<Item>, c: Certificate) returns (at: nat)
    requires ValidCertificate(s, c) && AllBytes(items)
    ensures at < |PutItems(s, items, c)| && PutItems(s, items, c)[at] == Blob(EncodeCertificate(s, c))
    ensures Stored(s, items, c.signed) ==>
              |PutItems(s, items, c)| == |items| && FirstMatch(s, items, c.signed, at)
    ensures !Stored(s, items, c.signed) ==> at == |items| && |PutItems(s, items, c)| == |items| + 1
    ensures forall k | 0 <= k < |items| && k != at :: PutItems(s, items, c)[k] == items[k]
    ensures AllBytes(PutItems(s, items, c))
  {
    hide Is, EncodeCertificate, ValidCertificate, PutItems;
    if n: nat :| Holds(s, items, n, c.signed) {
      at := FindFirst(s, items, c.signed, n);
      ReplacesExactly(s, items, c, at);
    } else {
      ReplacesExactly(s, items, c, 0);
      at := |items|;
    }
  }

  /** What each item holds after a write. */
  lemma {:induction false} HoldsAfterPut(s: Suite, items: seq<Item>, c: Certificate, at: nat, k: nat,
                                         signed: Signed<Binding>)
    requires ValidCertificate(s, c)
    requires at < |PutItems(s, items, c)| && PutItems(s, items, c)[at] == Blob(EncodeCertificate(s, c))
    requires at <= |items| && |PutItems(s, items, c)| == (if at == |items| then |items| + 1 else |items|)
    requires forall k | 0 <= k < |items| && k != at :: PutItems(s, items, c)[k] == items[k]
    ensures Holds(s, PutItems(s, items, c), k, signed) <==>
            if k == at then signed == c.signed else Holds(s, items, k, signed)
  {
    hide EncodeCertificate, ValidCertificate, PutItems, DecodeCertificate;
    OwnEncodingIs(s, c);
  }

  function PutAll(s: Suite, items: seq<Item>, cs: seq<Certificate>): seq<Item>
    decreases |cs|
  {
    if cs == [] then items else PutItems(s, PutAll(s, items, cs[..|cs| - 1]), cs[|cs| - 1])
  }

  /** The last certificate of a run with a given signed part. */
  function LastWritten(cs: seq<Certificate>, signed: Signed<Binding>): Option<Certificate>
    decreases |cs|
  {
    if cs == [] then None
    else if cs[|cs| - 1].signed == signed then Some(cs[|cs| - 1])
    else LastWritten(cs[..|cs| - 1], signed)
  }

  ghost predicate AllValid(s: Suite, cs: seq<Certificate>) {
    forall c | c in cs :: ValidCertificate(s, c)
  }

  /** The list after a run, against the list before it and what was written. */
  ghost predicate RunLeft(s: Suite, items: seq<Item>, cs: seq<Certificate>, after: seq<Item>) {
    && AllBytes(after) && |items| <= |after|
    && (forall signed :: Stored(s, after, signed) <==> Stored(s, items, signed) || LastWritten(cs, signed).Some?)
    && (forall k: nat, signed | Holds(s, after, k, signed) && LastWritten(cs, signed).Some? ::
          after[k] == Blob(EncodeCertificate(s, LastWritten(cs, signed).value)))
    && (forall k: nat |
          k < |items| && (forall signed | Holds(s, items, k, signed) :: LastWritten(cs, signed) == None) ::
          after[k] == items[k])
  }

  lemma {:induction false} StoredAfterPut(s: Suite, items: seq<Item>, c: Certificate, signed: Signed<Binding>)
    requires ValidCertificate(s, c) && AllBytes(items)
    ensures Stored(s, PutItems(s, items, c), signed) <==> Stored(s, items, signed) || signed == c.signed
  {
    hide Is, EncodeCertificate, ValidCertificate, PutItems;
    var at := PutToBytes(s, items, c);
    forall k: nat {
      HoldsAfterPut(s, items, c, at, k, signed);
    }
    if signed == c.signed {
      assert Holds(s, PutItems(s, items, c), at, signed);
    } else {
      if k: nat :| Holds(s, items, k, signed) {
        if k == at {
          OnlyOneSignedPart(s, items, k, signed, c.signed);
        }
        assert Holds(s, PutItems(s, items, c), k, signed);
      }
      if k: nat :| Holds(s, PutItems(s, items, c), k, signed) {
        assert Holds(s, items, k, signed);
      }
    }
  }

  lemma {:induction false} OnlyOneSignedPart(s: Suite, items: seq<Item>, k: nat, signed: Signed<Binding>,
                                             other: Signed<Binding>)
    requires Holds(s, items, k, signed) && Holds(s, items, k, other)
    ensures signed == other
  {
  }

  /** A run of writes never gives a signed part a second place in the list. */
  lemma {:induction false} RunKeepsOneEach(s: Suite, items: seq<Item>, cs: seq<Certificate>)
    requires AllValid(s, cs) && AllBytes(items) && AtMostOneEach(s, items)
    ensures AllBytes(PutAll(s, items, cs)) && AtMostOneEach(s, PutAll(s, items, cs))
    decreases |cs|
  {
    hide Is, EncodeCertificate, ValidCertificate, PutItems;
    if cs != [] {
      var front, c := cs[..|cs| - 1], cs[|cs| - 1];
      assert c in cs;
      RunKeepsOneEach(s, items, front);
      PutKeepsOneEach(s, PutAll(s, items, front), c);
    }
  }

  lemma PutKeepsOneEach(s: Suite, items: seq<Item>, c: Certificate)
    requires ValidCertificate(s, c) && AllBytes(items) && AtMostOneEach(s, items)
    ensures AllBytes(PutItems(s, items, c)) && AtMostOneEach(s, PutItems(s, items, c))
  {
    hide Is, EncodeCertificate, ValidCertificate, PutItems;
    var at := PutToBytes(s, items, c);
    assert forall k: nat | Holds(s, items, k, c.signed) :: k == at;
    var after := PutItems(s, items, c);
    forall i: nat, j: nat, signed | Holds(s, after, i, signed) && Holds(s, after, j, signed)
      ensures i == j
    {
      HoldsAfterPut(s, items, c, at, i, signed);
      HoldsAfterPut(s, items, c, at, j, signed);
    }
  }

  /**
   After any run of writes each certificate written stands in the list as last written, the
   entries of certificates never written are as they were, and nothing else is stored.
   */
  lemma {:induction false} RunMeans(s: Suite, items: seq<Item>, cs: seq<Certificate>)
    requires AllValid(s, cs) && AllBytes(items) && AtMostOneEach(s, items)
    ensures RunLeft(s, items, cs, PutAll(s, items, cs))
    decreases |cs|
  {
    hide Is, EncodeCertificate, ValidCertificate, PutItems, RunLeft, AtMostOneEach;
    if cs == [] {
      NothingWritten(s, items);
    } else {
      var front, c := cs[..|cs| - 1], cs[|cs| - 1];
      assert cs == front + [c] && c in cs;
      RunMeans(s, items, front);
      RunKeepsOneEach(s, items, front);
      OneMoreWrite(s, items, front, PutAll(s, items, front), c);
    }
  }

  /** How many signed parts a run introduces. */
  ghost function NewParts(s: Suite, items: seq<Item>, cs: seq<Certificate>): nat
    decreases |cs|
  {
    if cs == [] then 0
    else
      var front, signed := cs[..|cs| - 1], cs[|cs| - 1].signed;
      NewParts(s, items, front) + if Stored(s, items, signed) || LastWritten(front, signed).Some? then 0 else 1
  }

  /** A run lengthens the list by one for each signed part it introduces, and by nothing else. */
  lemma {:induction false} RunLength(s: Suite, items: seq<Item>, cs: seq<Certificate>)
    requires AllValid(s, cs) && AllBytes(items) && AtMostOneEach(s, items)
    ensures |PutAll(s, items, cs)| == |items| + NewParts(s, items, cs)
    decreases |cs|
  {
    hide Is, EncodeCertificate, ValidCertificate, PutItems, AtMostOneEach, LastWritten, Stored;
    if cs != [] {
      var front, c := cs[..|cs| - 1], cs[|cs| - 1];
      assert c in cs;
      RunLength(s, items, front);
      RunMeans(s, items, front);
      var at := PutToBytes(s, PutAll(s, items, front), c);
    }
  }

  lemma NothingWritten(s: Suite, items: seq<Item>)
    requires AllBytes(items)
    ensures RunLeft(s, items, [], items)
  {
  }

  lemma LastWrittenSnoc(cs: seq<Certificate>, c: Certificate, signed: Signed<Binding>)
    ensures LastWritten(cs + [c], signed) == if c.signed == signed then Some(c) else LastWritten(cs, signed)
  {
    assert (cs + [c])[..|cs|] == cs;
  }

  lemma {:induction false} OneMoreWrite(s: Suite, items: seq<Item>, cs: seq<Certificate>, before: seq<Item>,
                                        c: Certificate)
    requires ValidCertificate(s, c) && AtMostOneEach(s, before) && RunLeft(s, items, cs, before)
    ensures RunLeft(s, items, cs + [c], PutItems(s, before, c))
  {
    hide Is, EncodeCertificate, ValidCertificate, PutItems, LastWritten;
    var at := PutToBytes(s, before, c);
    assert forall k: nat | Holds(s, before, k, c.signed) :: k == at;
    var after := PutItems(s, before, c);
    forall signed
      ensures LastWritten(cs + [c], signed) == if c.signed == signed then Some(c) else LastWritten(cs, signed)
      ensures Stored(s, after, signed) <==> Stored(s, items, signed) || LastWritten(cs + [c], signed).Some?
    {
      LastWrittenSnoc(cs, c, signed);
      StoredAfterPut(s, before, c, signed);
    }
    forall k: nat, signed | Holds(s, after, k, signed) && LastWritten(cs + [c], signed).Some?
      ensures after[k] == Blob(EncodeCertificate(s, LastWritten(cs + [c], signed).value))
    {
      HoldsAfterPut(s, before, c, at, k, signed);
    }
    forall k: nat | k < |items| && (forall signed | Holds(s, items, k, signed) :: LastWritten(cs + [c], signed) == None)
      ensures after[k] == items[k]
    {
      Untouched(s, items, cs, before, c, k);
    }
  }

  lemma {:induction false} Untouched(s: Suite, items: seq<Item>, cs: seq<Certificate>, before: seq<Item>,
                                     c: Certificate, k: nat)
    requires RunLeft(s, items, cs, before) && k < |items|
    requires forall signed | Holds(s, items, k, signed) :: LastWritten(cs + [c], signed) == None
    ensures before[k] == items[k]
    ensures !Holds(s, before, k, c.signed)
  {
    hide Is, EncodeCertificate, LastWritten;
    forall signed | Holds(s, items, k, signed)
      ensures LastWritten(cs, signed) == None && signed != c.signed
    {
      LastWrittenSnoc(cs, c, signed);
    }
  }

  // ----- the document around the list -----

  /**
   A write that commits leaves the written list where reading finds it, beside what a merge left
   beside the list before it, and every other key alone; before and after, the key holds no
   reference. A write that fails changes nothing.
   */
  lemma {:induction false} PutLeavesTheRest(s: Suite, a: AnchorCodec, root: Root, c: Certificate, commits: bool)
    requires WellFormed(root)
    ensures var (after, r) := PutStep(s, a, root, c, commits);
            var key := ".well-known/onomancy/certificates";
            && WellFormed(after)
            && (r.Err? ==> after == root)
            && (r.Ok? ==>
                && after.Keys == root.Keys + {key}
                && (forall other | other in root && other != key :: after[other] == root[other])
                && Get(after, key) == Some(ListObject(PutItems(s, HeldItems(root), c)))
                && (key !in root ==> |after[key]| == 1 && HeldItems(root) == [])
                && (key in root ==>
                      var last := |root[key]| - 1;
                      && root[key][last] == ListObject(HeldItems(root))
                      && |after[key]| == last + 1
                      && after[key][..last] == root[key][..last])
                && Locate(a, after) == Ok(Inline(ByteEntries(PutItems(s, HeldItems(root), c))))
                && TargetAt(a, root, key) == None && TargetAt(a, after, key) == None)
  {
    hide EncodeCertificate, PutItems, ByteEntries;
  }

  /** The location takes no part in resolution: no write to it changes what any name resolves to. */
  lemma {:induction false} PutKeepsNames(s: Suite, a: AnchorCodec, root: Root, c: Certificate, commits: bool,
                                         name: Path)
    requires WellFormed(root)
    ensures Reference(a, PutStep(s, a, root, c, commits).0, name) == Reference(a, root, name)
  {
    hide PutStep, PutItems, ByteEntries, PathKey, ParseBareReference, Locate, HeldItems;
    PutLeavesTheRest(s, a, root, c, commits);
  }
}
