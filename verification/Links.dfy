/**
 The link model (onomancy_dnssec/src/link.rs): the octets of one RRset followed by the
 RRSIGs that cover it, parsed and cross-checked.
 */
module Links {
  import opened Wrappers
  import opened Wire
  import opened Names
  import opened Records

  datatype Link = Link(owner: Name, rrset: seq<Record>, rtype: nat, signatures: seq<Rrsig>)

  datatype LinkError =
    | MixedRrset
    | NoData
    | NoSignatures
    | BadRecord(record: RecordError)
    | BadRrsig(rrsig: RrsigError)
    | SignatureCoversWrongType(covered: nat, data: nat)
    | SignatureOwnerMismatch
    | WrongClass(got: nat)
    | InLink(wire: WireError)

  /** An RRSIG record beside its reading. */
  datatype Signature = Signature(record: Record, rrsig: Rrsig)

  /** The two halves a link is sorted into as its records are read. */
  datatype Halves = Halves(rrset: seq<Record>, signatures: seq<Signature>) {
    function Append(other: Halves): Halves {
      Halves(rrset + other.rrset, signatures + other.signatures)
    }
  }

  const EMPTY_HALVES: Halves := Halves([], [])

  /** Where one record goes: data, signature, or a refusal. */
  function Sort(r: Record): Result<Halves, LinkError> {
    if r.class_ != CLASS_IN then Err(WrongClass(r.class_))
    else if r.rtype == RRSIG then
      match ParseRrsig(r.rdata)
      case Err(e) => Err(BadRrsig(e))
      case Ok(rrsig) => Ok(Halves([], [Signature(r, rrsig)]))
    else Ok(Halves([r], []))
  }

  /** The records of a link, read and sorted in order; the first failure wins. */
  function Gather(b: Bytes): Result<Halves, LinkError>
    decreases |b|
  {
    if b == [] then Ok(EMPTY_HALVES)
    else match ReadRecord(b)
         case Err(e) => Err(BadRecord(e))
         case Ok((r, rest)) =>
           var first :- Sort(r);
           var more :- Gather(rest);
           Ok(first.Append(more))
  }

  function CheckSignatures(signatures: seq<Signature>, owner: Name, rtype: nat): Result<(), LinkError> {
    if signatures == [] then Ok(())
    else if signatures[0].record.owner != owner then Err(SignatureOwnerMismatch)
    else if signatures[0].rrsig.typeCovered != rtype then
      Err(SignatureCoversWrongType(signatures[0].rrsig.typeCovered, rtype))
    else CheckSignatures(signatures[1..], owner, rtype)
  }

  function Rrsigs(signatures: seq<Signature>): (r: seq<Rrsig>)
    ensures |r| == |signatures|
    ensures forall i | 0 <= i < |r| :: r[i] == signatures[i].rrsig
  {
    if signatures == [] then [] else [signatures[0].rrsig] + Rrsigs(signatures[1..])
  }

  function Assemble(h: Halves): Result<Link, LinkError> {
    if h.rrset == [] then Err(NoData)
    else
      var owner, rtype := h.rrset[0].owner, h.rrset[0].rtype;
      if exists r | r in h.rrset :: r.owner != owner || r.rtype != rtype then Err(MixedRrset)
      else if h.signatures == [] then Err(NoSignatures)
      else
        var _ :- CheckSignatures(h.signatures, owner, rtype);
        Ok(Link(owner, h.rrset, rtype, Rrsigs(h.signatures)))
  }

  function ParseLink(b: Bytes): Result<Link, LinkError> {
    if |b| > MAX_UNIT_BYTES then Err(InLink(OversizeUnit(|b|)))
    else
      var h :- Gather(b);
      Assemble(h)
  }

  // ----- what a parsed link is -----

  /** One RRset and the signatures over it: the shape every parsed link has. */
  ghost predicate WellFormed(l: Link) {
    && l.rrset != [] && l.signatures != []
    && ValidName(l.owner)
    && (forall r | r in l.rrset ::
          ValidRecord(r) && r.owner == l.owner && r.rtype == l.rtype && r.class_ == CLASS_IN && r.rtype != RRSIG)
    && (forall s | s in l.signatures :: s.typeCovered == l.rtype)
  }

  lemma {:induction false} GatherSorts(b: Bytes)
    requires Gather(b).Ok?
    ensures forall r | r in Gather(b).value.rrset :: ValidRecord(r) && r.class_ == CLASS_IN && r.rtype != RRSIG
    decreases |b|
  {
    if b != [] {
      RecordCanonical(b);
      GatherSorts(ReadRecord(b).value.1);
    }
  }

  lemma {:induction false} CheckedSignatures(signatures: seq<Signature>, owner: Name, rtype: nat)
    ensures CheckSignatures(signatures, owner, rtype).Ok? <==>
            forall s | s in signatures :: s.record.owner == owner && s.rrsig.typeCovered == rtype
  {
    if signatures != [] {
      CheckedSignatures(signatures[1..], owner, rtype);
      assert forall s :: s in signatures <==> s == signatures[0] || s in signatures[1..];
    }
  }

  /** A parsed link is one RRset, and each RRSIG record read with it stands at its owner and covers its type. */
  lemma ParsedLinksAreWellFormed(b: Bytes)
    requires ParseLink(b).Ok?
    ensures WellFormed(ParseLink(b).value)
    ensures var l, signatures := ParseLink(b).value, Gather(b).value.signatures;
            && l.signatures == Rrsigs(signatures)
            && forall s | s in signatures :: s.record.owner == l.owner && s.rrsig.typeCovered == l.rtype
  {
    hide Gather;
    GatherSorts(b);
    var h := Gather(b).value;
    var l := ParseLink(b).value;
    CheckedSignatures(h.signatures, l.owner, l.rtype);
    assert h.rrset[0] in h.rrset;
    forall s | s in l.signatures ensures s.typeCovered == l.rtype {
      var i :| 0 <= i < |l.signatures| && l.signatures[i] == s;
      assert h.signatures[i] in h.signatures;
    }
  }

  // ----- framing: writing records and parsing them back -----

  function WriteRecords(rs: seq<Record>): Bytes {
    if rs == [] then [] else WriteRecord(rs[0]) + WriteRecords(rs[1..])
  }

  /** `Gather` on the records themselves. */
  function GatherRecords(rs: seq<Record>): Result<Halves, LinkError> {
    if rs == [] then Ok(EMPTY_HALVES)
    else
      var first :- Sort(rs[0]);
      var more :- GatherRecords(rs[1..]);
      Ok(first.Append(more))
  }

  lemma {:induction false} WriteRecordsAppend(a: seq<Record>, b: seq<Record>)
    ensures WriteRecords(a + b) == WriteRecords(a) + WriteRecords(b)
  {
    hide WriteRecord;
    if a == [] {
      assert a + b == b;
    } else {
      assert (a + b)[1..] == a[1..] + b;
      WriteRecordsAppend(a[1..], b);
    }
  }

  lemma {:induction false} GatherWritten(rs: seq<Record>)
    requires forall r | r in rs :: ValidRecord(r)
    ensures Gather(WriteRecords(rs)) == GatherRecords(rs)
  {
    hide ReadRecord, WriteRecord, ValidRecord, Sort;
    if rs != [] {
      RecordPrefix(rs[0], WriteRecords(rs[1..]));
      GatherWritten(rs[1..]);
    }
  }

  /** Data records of one type other than RRSIG: they all land in the data half. */
  lemma {:induction false} GatherData(data: seq<Record>, rest: seq<Record>)
    requires forall r | r in data :: r.rtype != RRSIG
    ensures GatherRecords(data + rest).Ok? ==>
              GatherRecords(rest).Ok?
              && GatherRecords(data + rest).value == Halves(data, []).Append(GatherRecords(rest).value)
              && forall r | r in data :: r.class_ == CLASS_IN
    ensures GatherRecords(rest).Ok? && (forall r | r in data :: r.class_ == CLASS_IN) ==> GatherRecords(data + rest).Ok?
  {
    if data == [] {
      assert data + rest == rest;
    } else {
      assert (data + rest)[1..] == data[1..] + rest;
      GatherData(data[1..], rest);
      assert data == [data[0]] + data[1..];
      if GatherRecords(data + rest).Ok? {
        var h := GatherRecords(rest).value;
        assert [data[0]] + (data[1..] + h.rrset) == data + h.rrset;
        assert [] + ([] + h.signatures) == h.signatures;
      }
    }
  }

  /** RRSIG records: they all land in the signature half, in order. */
  lemma {:induction false} GatherSignatures(sigs: seq<Record>)
    requires forall r | r in sigs :: r.rtype == RRSIG
    requires GatherRecords(sigs).Ok?
    ensures var h := GatherRecords(sigs).value;
            && h.rrset == []
            && |h.signatures| == |sigs|
            && forall i | 0 <= i < |sigs| ::
                 h.signatures[i].record == sigs[i] && ParseRrsig(sigs[i].rdata) == Ok(h.signatures[i].rrsig)
  {
    hide ParseRrsig;
    if sigs != [] {
      GatherSignatures(sigs[1..]);
    }
  }

  lemma {:induction false} GatherSignaturesOk(sigs: seq<Record>)
    requires forall r | r in sigs :: r.rtype == RRSIG && r.class_ == CLASS_IN && ParseRrsig(r.rdata).Ok?
    ensures GatherRecords(sigs).Ok?
  {
    hide ParseRrsig;
    if sigs != [] {
      GatherSignaturesOk(sigs[1..]);
    }
  }

  /** The frame of an RRset: its data records, then RRSIGs that cover them at the same owner. */
  ghost predicate Frames(data: seq<Record>, sigs: seq<Record>, owner: Name, rtype: nat) {
    && data != [] && sigs != [] && rtype != RRSIG
    && (forall r | r in data :: ValidRecord(r) && r.rtype == rtype && r.owner == owner)
    && (forall r | r in sigs :: ValidRecord(r) && CoveredType(r) == Some(rtype) && r.owner == owner)
  }

  lemma {:induction false} FrameGathers(data: seq<Record>, sigs: seq<Record>, owner: Name, rtype: nat)
    requires Frames(data, sigs, owner, rtype)
    ensures Gather(WriteRecords(data + sigs)) == GatherRecords(data + sigs)
    ensures Gather(WriteRecords(data + sigs)).Ok? ==>
              var h := Gather(WriteRecords(data + sigs)).value;
              && h.rrset == data
              && |h.signatures| == |sigs|
              && (forall i | 0 <= i < |sigs| ::
                    h.signatures[i].record == sigs[i] && ParseRrsig(sigs[i].rdata) == Ok(h.signatures[i].rrsig))
  {
    hide ParseRrsig, Gather, ValidRecord;
    GatherWritten(data + sigs);
    if Gather(WriteRecords(data + sigs)).Ok? {
      GatherData(data, sigs);
      GatherSignatures(sigs);
    }
  }

  lemma {:induction false} GatheredClasses(rs: seq<Record>)
    requires GatherRecords(rs).Ok?
    ensures forall r | r in rs :: r.class_ == CLASS_IN
  {
    if rs != [] {
      GatheredClasses(rs[1..]);
      assert rs == [rs[0]] + rs[1..];
    }
  }

  /** What each record of a frame must be for the frame to parse. */
  ghost predicate Acceptable(data: seq<Record>, sigs: seq<Record>) {
    (forall r | r in data + sigs :: r.class_ == CLASS_IN) && forall s | s in sigs :: ParseRrsig(s.rdata).Ok?
  }

  lemma {:induction false} FrameGathersExactly(data: seq<Record>, sigs: seq<Record>, owner: Name, rtype: nat)
    requires Frames(data, sigs, owner, rtype)
    ensures Gather(WriteRecords(data + sigs)).Ok? <==> Acceptable(data, sigs)
  {
    hide ParseRrsig, Gather, ValidRecord, WriteRecords, GatherRecords;
    FrameGathers(data, sigs, owner, rtype);
    if GatherRecords(data + sigs).Ok? {
      GatheredClasses(data + sigs);
      var h := Gather(WriteRecords(data + sigs)).value;
      forall s | s in sigs ensures ParseRrsig(s.rdata).Ok? {
        var i :| 0 <= i < |sigs| && sigs[i] == s;
        assert ParseRrsig(sigs[i].rdata) == Ok(h.signatures[i].rrsig);
      }
    }
    if Acceptable(data, sigs) {
      forall s | s in sigs ensures s.class_ == CLASS_IN { assert s in data + sigs; }
      GatherSignaturesOk(sigs);
      forall d | d in data ensures d.class_ == CLASS_IN { assert d in data + sigs; }
      GatherData(data, sigs);
    }
  }

  /**
   A frame parses if and only if it is within the cap, every record has class IN and every
   RRSIG is readable; what it parses to is the RRset and signatures it was made from.
   */
  lemma {:induction false} FrameParses(data: seq<Record>, sigs: seq<Record>, owner: Name, rtype: nat)
    requires Frames(data, sigs, owner, rtype)
    ensures ParseLink(WriteRecords(data + sigs)).Ok? <==>
            |WriteRecords(data + sigs)| <= MAX_UNIT_BYTES && Acceptable(data, sigs)
    ensures var r := ParseLink(WriteRecords(data + sigs));
            r.Ok? ==> r.value.owner == owner && r.value.rtype == rtype && r.value.rrset == data
                      && |r.value.signatures| == |sigs|
                      && forall i | 0 <= i < |sigs| :: ParseRrsig(sigs[i].rdata) == Ok(r.value.signatures[i])
  {
    hide ParseRrsig, Gather, ValidRecord, WriteRecords, GatherRecords, Acceptable;
    var b := WriteRecords(data + sigs);
    FrameGathers(data, sigs, owner, rtype);
    FrameGathersExactly(data, sigs, owner, rtype);
    if Gather(b).Ok? {
      var h := Gather(b).value;
      forall s | s in h.signatures ensures s.record.owner == owner && s.rrsig.typeCovered == rtype {
        var i :| 0 <= i < |sigs| && h.signatures[i] == s;
        assert sigs[i] in sigs;
        CoveredTypeAgrees(sigs[i]);
      }
      CheckedSignatures(h.signatures, owner, rtype);
      assert h.rrset[0] in data;
    }
  }

  // ----- the parsing loops -----

  lemma AppendAssociative(a: Halves, b: Halves, c: Halves)
    ensures a.Append(b).Append(c) == a.Append(b.Append(c))
    ensures EMPTY_HALVES.Append(a) == a && a.Append(EMPTY_HALVES) == a
  {
  }

  /** What reading on from `h` yields, in terms of what is left to read. */
  ghost function Continue(h: Halves, rest: Result<Halves, LinkError>): Result<Halves, LinkError> {
    match rest
    case Err(e) => Err(e)
    case Ok(more) => Ok(h.Append(more))
  }

  /** The loop that reads a link's records and sorts them into its two halves. */
  method ReadHalves(reader: Reader) returns (r: Result<Halves, LinkError>)
    requires reader.Valid()
    modifies reader`pos
    ensures r == Gather(old(reader.Rest()))
  {
    hide ReadRecord, WriteRecord, ValidRecord, ParseRrsig;
    ghost var all := Gather(reader.Rest());
    var rrset: seq<Record> := [];
    var signatures: seq<Signature> := [];
    var remaining := reader.Remaining();
    assert Continue(Halves(rrset, signatures), all) == all by {
      if all.Ok? { AppendAssociative(all.value, EMPTY_HALVES, EMPTY_HALVES); }
    }
    while remaining > 0
      invariant reader.Valid() && remaining == |reader.Rest()|
      invariant Continue(Halves(rrset, signatures), Gather(reader.Rest())) == all
      decreases remaining
    {
      ghost var before := reader.Rest();
      ghost var sofar := Halves(rrset, signatures);
      var taken := TakeRecord(reader);
      if taken.Err? {
        return Err(BadRecord(taken.error));
      }
      var record := taken.value;
      if record.class_ != CLASS_IN {
        return Err(WrongClass(record.class_));
      }
      if record.rtype == RRSIG {
        var parsed := ParseRrsig(record.rdata);
        if parsed.Err? {
          return Err(BadRrsig(parsed.error));
        }
        signatures := signatures + [Signature(record, parsed.value)];
      } else {
        rrset := rrset + [record];
      }
      remaining := reader.Remaining();
      assert Sort(record).Ok? && Halves(rrset, signatures) == sofar.Append(Sort(record).value);
      if Gather(reader.Rest()).Ok? {
        AppendAssociative(sofar, Sort(record).value, Gather(reader.Rest()).value);
      }
    }
    AppendAssociative(Halves(rrset, signatures), EMPTY_HALVES, EMPTY_HALVES);
    return Ok(Halves(rrset, signatures));
  }

  lemma {:induction false} CheckNext(signatures: seq<Signature>, owner: Name, rtype: nat, i: nat)
    requires i < |signatures|
    ensures CheckSignatures(signatures[i..], owner, rtype) ==
            if signatures[i].record.owner != owner then Err(SignatureOwnerMismatch)
            else if signatures[i].rrsig.typeCovered != rtype then
              Err(SignatureCoversWrongType(signatures[i].rrsig.typeCovered, rtype))
            else CheckSignatures(signatures[i + 1..], owner, rtype)
  {
    assert signatures[i..][1..] == signatures[i + 1..];
  }

  /** The loop that cross-checks the signatures against the RRset. */
  method Check(signatures: seq<Signature>, owner: Name, rtype: nat) returns (r: Result<(), LinkError>)
    ensures r == CheckSignatures(signatures, owner, rtype)
    ensures r.Ok? <==> forall s | s in signatures :: s.record.owner == owner && s.rrsig.typeCovered == rtype
  {
    hide CheckSignatures;
    CheckedSignatures(signatures, owner, rtype);
    assert signatures[0..] == signatures;
    for i := 0 to |signatures|
      invariant CheckSignatures(signatures, owner, rtype) == CheckSignatures(signatures[i..], owner, rtype)
    {
      CheckNext(signatures, owner, rtype, i);
      if signatures[i].record.owner != owner {
        return Err(SignatureOwnerMismatch);
      }
      if signatures[i].rrsig.typeCovered != rtype {
        return Err(SignatureCoversWrongType(signatures[i].rrsig.typeCovered, rtype));
      }
    }
    NoneToCheck(owner, rtype);
    assert signatures[|signatures|..] == [];
    return Ok(());
  }

  lemma NoneToCheck(owner: Name, rtype: nat)
    ensures CheckSignatures([], owner, rtype) == Ok(())
  {
  }

  /** Parse one framed link. */
  method Parse(b: Bytes) returns (r: Result<Link, LinkError>)
    ensures r == ParseLink(b)
  {
    hide Gather, CheckSignatures, Rrsigs;
    var opened' := Reader.New(b);
    if opened'.Err? {
      return Err(InLink(opened'.error));
    }
    var halves :- ReadHalves(opened'.value);
    if halves.rrset == [] {
      return Err(NoData);
    }
    var owner, rtype := halves.rrset[0].owner, halves.rrset[0].rtype;
    if exists d | d in halves.rrset :: d.owner != owner || d.rtype != rtype {
      return Err(MixedRrset);
    }
    if halves.signatures == [] {
      return Err(NoSignatures);
    }
    var _ :- Check(halves.signatures, owner, rtype);
    return Ok(Link(owner, halves.rrset, rtype, Rrsigs(halves.signatures)));
  }
}
