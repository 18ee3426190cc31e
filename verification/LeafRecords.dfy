/**
 What a TXT RRset says, on its own terms: which RDATA carries which binding record, and the list
 of records an RRset yields. The validator's reading of its leaf is proved to be this.
 */
module LeafRecords {
  import opened Wrappers
  import opened Wire
  import opened Records
  import opened TxtRecords
  import opened Validator

  // ----- character strings -----

  /** Each string under its length octet (section 3.3.14 of RFC 1035). */
  function SpellStrings(strings: seq<Bytes>): Bytes
    requires forall s | s in strings :: |s| <= 255
  {
    if strings == [] then [] else [|strings[0]| as byte] + strings[0] + SpellStrings(strings[1..])
  }

  ghost predicate Spells(strings: seq<Bytes>, rdata: Bytes) {
    (forall s | s in strings :: |s| <= 255) && rdata == SpellStrings(strings)
  }

  lemma {:induction false} SpelledStringsRead(strings: seq<Bytes>)
    requires forall s | s in strings :: |s| <= 255
    ensures TxtStrings(SpellStrings(strings)) == Some(Joined(strings))
    ensures strings != [] ==> SpellStrings(strings) != []
  {
    if strings != [] {
      var s, rest := strings[0], SpellStrings(strings[1..]);
      SpelledStringsRead(strings[1..]);
      var rdata := [|s| as byte] + s + rest;
      assert rdata[1..1 + |s|] == s && rdata[1 + |s|..] == rest;
    }
  }

  lemma {:induction false} ReadStringsAreSpelled(rdata: Bytes) returns (strings: seq<Bytes>)
    requires TxtStrings(rdata).Some?
    ensures Spells(strings, rdata) && TxtStrings(rdata) == Some(Joined(strings))
    ensures rdata != [] ==> strings != []
  {
    if rdata == [] {
      strings := [];
    } else {
      var len := rdata[0] as nat;
      var rest := ReadStringsAreSpelled(rdata[1 + len..]);
      strings := [rdata[1..1 + len]] + rest;
      assert strings[1..] == rest;
      assert rdata == [rdata[0]] + rdata[1..1 + len] + rdata[1 + len..];
    }
  }

  // ----- one RDATA -----

  /** Octets and characters of the same numbers. */
  ghost predicate SameText(octets: Bytes, text: string) {
    |octets| == |text| && forall i | 0 <= i < |octets| :: octets[i] as int == text[i] as int
  }

  /** The RDATA is one character string or more, which together print a valid record. */
  ghost predicate Carries(canonical: KeyTest, rdata: Bytes, record: TxtRecord) {
    && ValidTxt(canonical, record) && |rdata| <= MAX_UNIT_BYTES
    && exists strings :: strings != [] && Spells(strings, rdata) && SameText(Joined(strings), Display(record))
  }

  lemma SameTextExactly(octets: Bytes, text: string)
    ensures AsText(octets) == text <==> SameText(octets, text)
  {
    if AsText(octets) == text {
      assert forall i | 0 <= i < |octets| :: AsText(octets)[i] == octets[i] as char;
    }
  }

  /** The walk reads a binding from an RDATA exactly when the RDATA carries it. */
  lemma {:induction false} CarriedExactly(canonical: KeyTest, rdata: Bytes, record: TxtRecord)
    ensures BindingOf(canonical, rdata) == Some(record) <==> Carries(canonical, rdata, record)
  {
    hide Display, ValidTxt, Classify, AsText, SameText, TxtStrings;
    if BindingOf(canonical, rdata) == Some(record) {
      var text := ParseTxt(rdata).value;
      BindingPrints(canonical, AsText(text));
      SameTextExactly(text, Display(record));
      var strings := ReadStringsAreSpelled(rdata);
    }
    if Carries(canonical, rdata, record) {
      var strings :| strings != [] && Spells(strings, rdata) && SameText(Joined(strings), Display(record));
      SpelledStringsRead(strings);
      SameTextExactly(Joined(strings), Display(record));
      DisplayParses(canonical, record);
    }
  }

  // ----- an RRset -----

  ghost predicate Increasing(at: seq<nat>) {
    forall i, k | 0 <= i < k < |at| :: at[i] < at[k]
  }

  /** The records are carried by the RDATA at these places. */
  ghost predicate CarriedAt(canonical: KeyTest, rrset: seq<Record>, records: seq<TxtRecord>, at: seq<nat>) {
    |at| == |records|
    && forall i | 0 <= i < |at| :: at[i] < |rrset| && Carries(canonical, rrset[at[i]].rdata, records[i])
  }

  /** No other place carries any. */
  ghost predicate NoneElsewhere(canonical: KeyTest, rrset: seq<Record>, at: seq<nat>) {
    forall m: nat, record | m < |rrset| && Carries(canonical, rrset[m].rdata, record) :: m in at
  }

  /** `at` lists, in order, the places of the RRset that carry a record, and `records` what they carry. */
  ghost predicate YieldsAt(canonical: KeyTest, rrset: seq<Record>, records: seq<TxtRecord>, at: seq<nat>) {
    Increasing(at) && CarriedAt(canonical, rrset, records, at) && NoneElsewhere(canonical, rrset, at)
  }

  /** One entry for each RDATA that carries a record, in RRset order, and nothing else. */
  ghost predicate Yields(canonical: KeyTest, rrset: seq<Record>, records: seq<TxtRecord>) {
    exists at :: YieldsAt(canonical, rrset, records, at)
  }

  function Shifted(at: seq<nat>): (r: seq<nat>)
    ensures |r| == |at| && forall i | 0 <= i < |r| :: r[i] == at[i] + 1
  {
    seq(|at|, i requires 0 <= i < |at| => at[i] + 1)
  }

  lemma {:induction false} NoneElsewhereShifted(canonical: KeyTest, rrset: seq<Record>, at: seq<nat>, places: seq<nat>)
    requires rrset != [] && NoneElsewhere(canonical, rrset[1..], at)
    requires forall m | m in at :: m + 1 in places
    requires 0 in places || forall record :: !Carries(canonical, rrset[0].rdata, record)
    ensures NoneElsewhere(canonical, rrset, places)
  {
    hide Carries;
    forall m: nat, record | m < |rrset| && Carries(canonical, rrset[m].rdata, record) ensures m in places {
      if m > 0 {
        assert rrset[m] == rrset[1..][m - 1];
        assert m - 1 in at && (m - 1) + 1 in places;
      }
    }
  }

  lemma ShiftedHolds(at: seq<nat>)
    ensures forall m | m in at :: m + 1 in Shifted(at)
  {
    forall m | m in at ensures m + 1 in Shifted(at) {
      var i :| 0 <= i < |at| && at[i] == m;
      assert Shifted(at)[i] == m + 1;
    }
  }

  lemma {:induction false} FirstSkipped(canonical: KeyTest, rrset: seq<Record>, records: seq<TxtRecord>, at: seq<nat>)
    requires rrset != [] && YieldsAt(canonical, rrset[1..], records, at)
    requires forall record :: !Carries(canonical, rrset[0].rdata, record)
    ensures YieldsAt(canonical, rrset, records, Shifted(at))
  {
    hide Carries, NoneElsewhere;
    ShiftedHolds(at);
    NoneElsewhereShifted(canonical, rrset, at, Shifted(at));
  }

  lemma {:induction false} FirstTaken(canonical: KeyTest, rrset: seq<Record>, first: TxtRecord,
                                      records: seq<TxtRecord>, at: seq<nat>)
    requires rrset != [] && YieldsAt(canonical, rrset[1..], records, at)
    requires Carries(canonical, rrset[0].rdata, first)
    ensures YieldsAt(canonical, rrset, [first] + records, [0] + Shifted(at))
  {
    hide Carries, NoneElsewhere;
    var places := [0] + Shifted(at);
    ShiftedHolds(at);
    assert 0 in places && forall m | m in Shifted(at) :: m in places;
    NoneElsewhereShifted(canonical, rrset, at, places);
    forall i | 0 <= i < |places|
      ensures places[i] < |rrset| && Carries(canonical, rrset[places[i]].rdata, ([first] + records)[i])
    {
      if i > 0 { assert rrset[places[i]] == rrset[1..][at[i - 1]]; }
    }
  }

  lemma {:induction false} PlacesOf(canonical: KeyTest, rrset: seq<Record>) returns (at: seq<nat>)
    ensures YieldsAt(canonical, rrset, ParseBindings(canonical, rrset), at)
  {
    hide BindingOf, Carries, YieldsAt, Shifted;
    if rrset == [] {
      at := [];
      NothingYields(canonical);
    } else {
      var rest := PlacesOf(canonical, rrset[1..]);
      var read := BindingOf(canonical, rrset[0].rdata);
      forall record ensures read == Some(record) <==> Carries(canonical, rrset[0].rdata, record) {
        CarriedExactly(canonical, rrset[0].rdata, record);
      }
      match read {
        case Some(first) =>
          FirstTaken(canonical, rrset, first, ParseBindings(canonical, rrset[1..]), rest);
          at := [0] + Shifted(rest);
          assert ParseBindings(canonical, rrset) == [first] + ParseBindings(canonical, rrset[1..]);
        case None =>
          FirstSkipped(canonical, rrset, ParseBindings(canonical, rrset[1..]), rest);
          at := Shifted(rest);
          assert ParseBindings(canonical, rrset) == [] + ParseBindings(canonical, rrset[1..])
                                                 == ParseBindings(canonical, rrset[1..]);
      }
    }
  }

  lemma NothingYields(canonical: KeyTest)
    ensures YieldsAt(canonical, [], [], [])
  {
  }

  /** The records read from a leaf are the ones its RRset yields. */
  lemma BindingsYield(canonical: KeyTest, rrset: seq<Record>)
    ensures Yields(canonical, rrset, ParseBindings(canonical, rrset))
  {
    hide YieldsAt;
    var at := PlacesOf(canonical, rrset);
  }

  /** An RRset yields one list of records: it cannot be read in two ways. */
  lemma {:induction false} YieldsOneList(canonical: KeyTest, rrset: seq<Record>, a: seq<TxtRecord>, b: seq<TxtRecord>)
    requires Yields(canonical, rrset, a) && Yields(canonical, rrset, b)
    ensures a == b
  {
    hide Carries;
    var x :| YieldsAt(canonical, rrset, a, x);
    var y :| YieldsAt(canonical, rrset, b, y);
    SamePlaces(x, y);
    forall i | 0 <= i < |x| ensures a[i] == b[i] {
      CarriedExactly(canonical, rrset[x[i]].rdata, a[i]);
      CarriedExactly(canonical, rrset[x[i]].rdata, b[i]);
    }
  }

  /** Two increasing lists of the same numbers are one list. */
  lemma {:induction false} SamePlaces(x: seq<nat>, y: seq<nat>)
    requires forall i, k | 0 <= i < k < |x| :: x[i] < x[k]
    requires forall i, k | 0 <= i < k < |y| :: y[i] < y[k]
    requires forall m :: m in x <==> m in y
    ensures x == y
  {
    if x != [] {
      assert x[0] in y;
    }
    if y != [] {
      assert y[0] in x;
      assert x[0] == y[0];
      forall m ensures m in x[1..] <==> m in y[1..] {
        assert m in x <==> m == x[0] || m in x[1..];
        assert m in y <==> m == y[0] || m in y[1..];
      }
      SamePlaces(x[1..], y[1..]);
    }
  }
}
