/**
 Certificate lists by signed region. `put` is documented to keep one entry for each signed
 region; the code compares the signature as well, so it keeps one for each region and signature.
 */
module RegionLists {
  import opened Wrappers
  import opened Wire
  import opened DnsNames
  import opened Namestores
  import opened SignedUnits
  import opened Bindings
  import opened Certificates
  import opened CertificateLists
  import Text

  /** No two items are entries with one signed region. */
  ghost predicate OneEachRegion(s: Suite, items: seq<Item>) {
    forall i: nat, j: nat, a, b | Holds(s, items, i, a) && Holds(s, items, j, b) && a.payload == b.payload :: i == j
  }

  /** An entry has this signed region under another signature. */
  ghost predicate SignedOtherwise(s: Suite, items: seq<Item>, signed: Signed<Binding>) {
    exists other :: Stored(s, items, other) && other.payload == signed.payload && other != signed
  }

  /** A signed region is a payload: valid certificates sign the same octets exactly when their bindings are equal. */
  lemma {:induction false} RegionIsThePayload(s: Suite, c: Certificate, d: Certificate)
    requires ValidCertificate(s, c) && ValidCertificate(s, d)
    ensures Region(BindingKind(s), c.signed.payload) == Region(BindingKind(s), d.signed.payload) <==>
            c.signed.payload == d.signed.payload
  {
    hide EncodeBinding, DecodeBinding, ValidAttached, EncodeCertificate;
    BindingLaws(s);
    var k := BindingKind(s);
    var x, y := c.signed.payload, d.signed.payload;
    assert Region(k, x)[TAG_LEN..] == k.encode(x) + [] && Region(k, y)[TAG_LEN..] == k.encode(y) + [];
    assert k.decode(k.encode(x) + []) == Ok((x, [])) && k.decode(k.encode(y) + []) == Ok((y, []));
  }

  // ----- one write -----

  /** One each by region is one each by certificate, and no region stored under two signatures. */
  lemma {:induction false} RegionsAndCertificates(s: Suite, items: seq<Item>)
    ensures OneEachRegion(s, items) <==>
            && AtMostOneEach(s, items)
            && forall a, b | Stored(s, items, a) && Stored(s, items, b) && a.payload == b.payload :: a == b
  {
    hide Is;
    if OneEachRegion(s, items) {
      forall a, b | Stored(s, items, a) && Stored(s, items, b) && a.payload == b.payload ensures a == b {
        var i: nat :| Holds(s, items, i, a);
        var j: nat :| Holds(s, items, j, b);
        OnlyOneSignedPart(s, items, i, a, b);
      }
    } else {
      var i: nat, j: nat, a, b :| Holds(s, items, i, a) && Holds(s, items, j, b) && a.payload == b.payload && i != j;
      assert Stored(s, items, a) && Stored(s, items, b);
    }
  }

  /** A write keeps one entry for each signed region exactly when no entry has its region under another signature. */
  lemma {:induction false} PutKeepsRegionsExactly(s: Suite, items: seq<Item>, c: Certificate)
    requires ValidCertificate(s, c) && AllBytes(items) && OneEachRegion(s, items)
    ensures OneEachRegion(s, PutItems(s, items, c)) <==> !SignedOtherwise(s, items, c.signed)
  {
    hide Holds, ValidCertificate, PutItems, AtMostOneEach, OneEachRegion, Stored;
    RegionsAndCertificates(s, items);
    RegionsAndCertificates(s, PutItems(s, items, c));
    PutKeepsOneEach(s, items, c);
    forall signed
      ensures Stored(s, PutItems(s, items, c), signed) <==> Stored(s, items, signed) || signed == c.signed
    {
      StoredAfterPut(s, items, c, signed);
    }
  }

  /** Two certificates that differ in the signature alone are both kept. */
  lemma {:induction false} BothAreKept(s: Suite, c: Certificate, d: Certificate)
    requires ValidCertificate(s, c) && ValidCertificate(s, d)
    requires c.signed.payload == d.signed.payload && c.signed.signature != d.signed.signature
    ensures var items := [Blob(EncodeCertificate(s, c))];
            && PutItems(s, items, d) == items + [Blob(EncodeCertificate(s, d))]
            && OneEachRegion(s, items) && !OneEachRegion(s, PutItems(s, items, d))
  {
    hide Is, EncodeCertificate, ValidCertificate, PutItems, DecodeCertificate;
    OwnEncodingIs(s, c);
    var items := [Blob(EncodeCertificate(s, c))];
    assert Holds(s, items, 0, c.signed);
    forall k: nat, signed | Holds(s, items, k, signed) ensures k == 0 && signed == c.signed {
      OnlyOneSignedPart(s, items, 0, signed, c.signed);
    }
    assert !Stored(s, items, d.signed);
    ReplacesExactly(s, items, d, 0);
    PutKeepsRegionsExactly(s, items, d);
    assert Stored(s, items, c.signed);
  }

  /** Such certificates exist wherever a key's two signatures over one region both verify: assembly takes both. */
  lemma {:induction false} SignedTwice(s: Suite, p: Params, signer: Bytes, g: Bytes, h: Bytes)
    requires ValidParams(s, p) && IsKey(s, signer) && |g| == |h| == SIGNATURE_LEN && g != h
    requires s.verify(signer, SignableBytes(s, p, signer), g) && s.verify(signer, SignableBytes(s, p, signer), h)
    requires |SignableBytes(s, p, signer)| + SIGNATURE_LEN + |WriteAttached(s, p.attached)| <= MAX_UNIT_BYTES
    ensures FromPartsCertificate(s, p, signer, g).Ok? && FromPartsCertificate(s, p, signer, h).Ok?
    ensures var c, d := FromPartsCertificate(s, p, signer, g).value, FromPartsCertificate(s, p, signer, h).value;
            PutAll(s, [], [c, d]) == [Blob(EncodeCertificate(s, c)), Blob(EncodeCertificate(s, d))]
  {
    hide FromPartsCertificate, EncodeCertificate, ValidCertificate, PutItems, ValidParams, SignableBytes, WriteAttached;
    AssemblyIsExact(s, p, signer, g);
    AssemblyIsExact(s, p, signer, h);
    var c, d := FromPartsCertificate(s, p, signer, g).value, FromPartsCertificate(s, p, signer, h).value;
    BothAreKept(s, c, d);
    ReplacesExactly(s, [], c, 0);
    assert [c, d][..1] == [c] && [c][..0] == [];
    assert PutAll(s, [], [c]) == PutItems(s, PutAll(s, [], []), c);
    assert [] + [Blob(EncodeCertificate(s, c))] == [Blob(EncodeCertificate(s, c))];
  }

  /** The octets of `a.b`. */
  const A_B: Bytes := [97, 46, 98]

  lemma SomeHostname()
    ensures ValidHostname(A_B)
  {
    Text.SplitAt([97], [98], DOT);
    Text.SplitAt([98], [], DOT);
    assert [97] + [DOT] + [98] == A_B;
    assert Text.Split(A_B, DOT) == [[97], [98]];
  }

  /** There is such a suite and such a request, so one key holder can make a list hold a region twice. */
  lemma {:induction false} SignedTwiceExists() returns (s: Suite, p: Params, signer: Bytes, g: Bytes, h: Bytes)
    ensures ValidParams(s, p) && IsKey(s, signer) && |g| == |h| == SIGNATURE_LEN && g != h
    ensures s.verify(signer, SignableBytes(s, p, signer), g) && s.verify(signer, SignableBytes(s, p, signer), h)
    ensures |SignableBytes(s, p, signer)| + SIGNATURE_LEN + |WriteAttached(s, p.attached)| <= MAX_UNIT_BYTES
  {
    hide ValidHostname, LawfulSuite, LawfulVarint;
    s := SomeSuite();
    SomeHostname();
    signer := Zeros(KEY_LEN);
    p := Params(signer, 0, A_B, [], None, Attached([], [], []));
    g, h := Zeros(SIGNATURE_LEN), Zeros(SIGNATURE_LEN - 1) + [1];
    assert g[SIGNATURE_LEN - 1] == 0 && h[SIGNATURE_LEN - 1] == 1;
  }

  // ----- runs -----

  ghost predicate Written(cs: seq<Certificate>, signed: Signed<Binding>) {
    exists c | c in cs :: c.signed == signed
  }

  /** Stored before the run, or written in it. */
  ghost predicate Known(s: Suite, items: seq<Item>, cs: seq<Certificate>, signed: Signed<Binding>) {
    Stored(s, items, signed) || Written(cs, signed)
  }

  /** No signed region is known under two signatures. */
  ghost predicate SignedOnce(s: Suite, items: seq<Item>, cs: seq<Certificate>) {
    forall a, b | Known(s, items, cs, a) && Known(s, items, cs, b) && a.payload == b.payload :: a == b
  }

  lemma {:induction false} LastWrittenExactly(cs: seq<Certificate>, signed: Signed<Binding>)
    ensures LastWritten(cs, signed).Some? <==> Written(cs, signed)
    decreases |cs|
  {
    if cs != [] {
      var front, c := cs[..|cs| - 1], cs[|cs| - 1];
      LastWrittenExactly(front, signed);
      assert cs == front + [c];
    }
  }

  /** After a run each region stands once exactly when no region is known under two signatures. */
  lemma {:induction false} RunKeepsRegionsExactly(s: Suite, items: seq<Item>, cs: seq<Certificate>)
    requires AllValid(s, cs) && AllBytes(items) && OneEachRegion(s, items)
    ensures OneEachRegion(s, PutAll(s, items, cs)) <==> SignedOnce(s, items, cs)
  {
    hide AllValid, PutAll, OneEachRegion, AtMostOneEach, Stored, LastWritten, Written, Holds;
    RegionsAndCertificates(s, items);
    RunMeans(s, items, cs);
    RunKeepsOneEach(s, items, cs);
    RegionsAndCertificates(s, PutAll(s, items, cs));
    forall signed ensures Stored(s, PutAll(s, items, cs), signed) <==> Known(s, items, cs, signed) {
      LastWrittenExactly(cs, signed);
    }
  }

  /** How many signed regions a run introduces. */
  ghost function NewRegions(s: Suite, items: seq<Item>, cs: seq<Certificate>): nat
    decreases |cs|
  {
    if cs == [] then 0
    else
      var front, last := cs[..|cs| - 1], cs[|cs| - 1].signed;
      NewRegions(s, items, front)
      + if exists known :: Known(s, items, front, known) && known.payload == last.payload then 0 else 1
  }

  lemma {:induction false} KnownSnoc(s: Suite, items: seq<Item>, cs: seq<Certificate>, signed: Signed<Binding>)
    requires cs != []
    ensures Known(s, items, cs, signed) <==>
            Known(s, items, cs[..|cs| - 1], signed) || signed == cs[|cs| - 1].signed
  {
    hide Stored;
    assert cs == cs[..|cs| - 1] + [cs[|cs| - 1]];
  }

  lemma NothingIsWritten()
    ensures forall signed :: !Written([], signed)
  {
  }

  lemma {:induction false} SignedOnceSnoc(s: Suite, items: seq<Item>, cs: seq<Certificate>)
    requires cs != []
    ensures var front, last := cs[..|cs| - 1], cs[|cs| - 1].signed;
            SignedOnce(s, items, cs) <==>
            && SignedOnce(s, items, front)
            && forall known | Known(s, items, front, known) && known.payload == last.payload :: known == last
  {
    hide Known;
    var front, last := cs[..|cs| - 1], cs[|cs| - 1].signed;
    forall signed ensures Known(s, items, cs, signed) <==> Known(s, items, front, signed) || signed == last {
      KnownSnoc(s, items, cs, signed);
    }
    if SignedOnce(s, items, cs) {
      forall known | Known(s, items, front, known) && known.payload == last.payload ensures known == last {
        assert Known(s, items, cs, known) && Known(s, items, cs, last);
      }
    }
  }

  /** A region first met is a certificate first met; the converse is what `SignedOnce` says. */
  lemma {:induction false} RegionsCount(s: Suite, items: seq<Item>, cs: seq<Certificate>)
    requires OneEachRegion(s, items)
    ensures NewRegions(s, items, cs) <= NewParts(s, items, cs)
    ensures NewRegions(s, items, cs) == NewParts(s, items, cs) <==> SignedOnce(s, items, cs)
    decreases |cs|
  {
    hide OneEachRegion, Stored, Written, LastWritten, SignedOnce;
    if cs == [] {
      NoneWritten(s, items);
    } else {
      var front, last := cs[..|cs| - 1], cs[|cs| - 1].signed;
      RegionsCount(s, items, front);
      LastWrittenExactly(front, last);
      SignedOnceSnoc(s, items, cs);
      assert NewParts(s, items, cs) == NewParts(s, items, front) + if Known(s, items, front, last) then 0 else 1;
      if Known(s, items, front, last) {
        KnownOnce(s, items, front, last);
      }
    }
  }

  lemma {:induction false} KnownOnce(s: Suite, items: seq<Item>, cs: seq<Certificate>, last: Signed<Binding>)
    requires Known(s, items, cs, last)
    ensures SignedOnce(s, items, cs) ==>
              forall known | Known(s, items, cs, known) && known.payload == last.payload :: known == last
  {
    hide Known;
  }

  lemma NoneWritten(s: Suite, items: seq<Item>)
    requires OneEachRegion(s, items)
    ensures SignedOnce(s, items, [])
  {
    hide OneEachRegion, Stored;
    RegionsAndCertificates(s, items);
    NothingIsWritten();
  }

  /**
   A run lengthens the list by one for each signed region it introduces, and by no more, exactly
   when no region is known under two signatures.
   */
  lemma {:induction false} RegionLength(s: Suite, items: seq<Item>, cs: seq<Certificate>)
    requires AllValid(s, cs) && AllBytes(items) && OneEachRegion(s, items)
    ensures |PutAll(s, items, cs)| == |items| + NewRegions(s, items, cs) <==> SignedOnce(s, items, cs)
    ensures |PutAll(s, items, cs)| >= |items| + NewRegions(s, items, cs)
  {
    hide AllValid, PutAll, OneEachRegion, AtMostOneEach, SignedOnce, NewRegions, NewParts;
    RegionsAndCertificates(s, items);
    RunLength(s, items, cs);
    RegionsCount(s, items, cs);
  }
}
