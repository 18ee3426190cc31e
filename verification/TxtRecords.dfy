/**
 The TXT binding record (onomancy_dnssec/src/txt/record.rs). A string here stands for
 its UTF-8 octets, one character an octet: every test the source makes is octet-wise.
 */
module TxtRecords {
  import opened Wrappers
  import opened Wire
  import opened Text
  import opened Serials
  import Base64

  const FORMAT_TAG: string := "v=ONO0"
  const KEY_ALGORITHM: string := "k=ed25519"
  const MAX_RECORD_LEN: nat := 133
  const KEY_BASE64_LEN: nat := 44
  const KEY_LEN: nat := 32

  datatype TxtRecord = TxtRecord(serial: nat, generation: Bytes, document: Bytes)

  datatype FieldName = KeyAlgorithmField | SerialField | GenerationField | DocumentField

  datatype TxtError =
    | RecordTooLong(len: nat)
    | WrongFieldCount(got: nat)
    | UnknownKeyAlgorithm(name: string)
    | WrongFieldPrefix(field: FieldName)
    | BadSerial(serial: SerialError)
    | WrongBase64Length(field: FieldName, got: nat)
    | MalformedBase64(field: FieldName)
    | WrongKeyLength(field: FieldName, got: nat)
    | NotACurvePoint(field: FieldName)

  datatype Classified = Binding(record: TxtRecord) | UnknownRecord | UnknownVersion

  /** The strict key decoder from outside: which 32-octet strings spell a curve point. */
  type KeyTest = Bytes -> bool

  predicate IsKey(canonical: KeyTest, key: Bytes) {
    |key| == KEY_LEN && canonical(key)
  }

  predicate ValidTxt(canonical: KeyTest, r: TxtRecord) {
    r.serial < U64_LIMIT && IsKey(canonical, r.generation) && IsKey(canonical, r.document)
  }

  function Fields(r: TxtRecord): seq<string> {
    [FORMAT_TAG, KEY_ALGORITHM, "n=" + Decimal(r.serial), "g=" + Base64.Encode(r.generation),
     "p=" + Base64.Encode(r.document)]
  }

  /** The published spelling of a record. */
  function Display(r: TxtRecord): string {
    Join(Fields(r), ';')
  }

  function DecodeKeyField(canonical: KeyTest, text: string, prefix: string, field: FieldName): Result<Bytes, TxtError> {
    match StripPrefix(text, prefix)
    case None => Err(WrongFieldPrefix(field))
    case Some(encoded) =>
      if |encoded| != KEY_BASE64_LEN then Err(WrongBase64Length(field, |encoded|))
      else match Base64.Decode(encoded)
           case None => Err(MalformedBase64(field))
           case Some(bytes) =>
             if |bytes| != KEY_LEN then Err(WrongKeyLength(field, |bytes|))
             else if !canonical(bytes) then Err(NotACurvePoint(field))
             else Ok(bytes)
  }

  function ParseSerialField(text: string): Result<nat, TxtError> {
    match StripPrefix(text, "n=")
    case None => Err(WrongFieldPrefix(SerialField))
    case Some(digits) =>
      match ParseSerial(digits)
      case Err(e) => Err(BadSerial(e))
      case Ok(n) => Ok(n)
  }

  function ParseOno0(canonical: KeyTest, raw: string): Result<TxtRecord, TxtError> {
    if |raw| > MAX_RECORD_LEN then Err(RecordTooLong(|raw|))
    else
      var fields := Split(raw, ';');
      if |fields| != 5 then Err(WrongFieldCount(|fields|))
      else if fields[1] != KEY_ALGORITHM then
        (match StripPrefix(fields[1], "k=")
         case Some(name) => Err(UnknownKeyAlgorithm(name))
         case None => Err(WrongFieldPrefix(KeyAlgorithmField)))
      else
        var serial :- ParseSerialField(fields[2]);
        var generation :- DecodeKeyField(canonical, fields[3], "g=", GenerationField);
        var document :- DecodeKeyField(canonical, fields[4], "p=", DocumentField);
        Ok(TxtRecord(serial, generation, document))
  }

  /** The digits after `v=ONO` up to the first separator, if the tag is there. */
  function VersionDigits(raw: string): Option<string> {
    match StripPrefix(raw, "v=ONO")
    case None => None
    case Some(rest) => Some(Split(rest, ';')[0])
  }

  function Classify(canonical: KeyTest, raw: string): Result<Classified, TxtError> {
    match VersionDigits(raw)
    case None => Ok(UnknownRecord)
    case Some(digits) =>
      if digits == "" || !AllDigits(digits) then Ok(UnknownRecord)
      else if digits != "0" then Ok(UnknownVersion)
      else
        var record :- ParseOno0(canonical, raw);
        Ok(Binding(record))
  }

  // ----- the spelling is a bijection -----

  lemma NoSeparatorInDigits(s: string)
    requires AllDigits(s)
    ensures ';' !in s
  {
  }

  lemma {:induction false} NoSeparatorInBase64(b: Bytes)
    ensures ';' !in Base64.Encode(b)
  {
    if |b| > 3 {
      NoSeparatorInGroup(b[..3]);
      NoSeparatorInBase64(b[3..]);
    } else if b != [] {
      NoSeparatorInGroup(b);
    }
  }

  lemma NoSeparatorInSextet(v: nat)
    requires v < 64
    ensures Base64.SextetChar(v) != ';'
  {
  }

  lemma NoSeparatorInGroup(b: Bytes)
    requires 1 <= |b| <= 3
    ensures ';' !in Base64.EncodeGroup(b)
  {
    hide Base64.SextetChar;
    forall v: nat | v < 64 ensures Base64.SextetChar(v) != ';' { NoSeparatorInSextet(v); }
  }

  lemma FieldsHoldNoSeparator(r: TxtRecord)
    ensures forall i | 0 <= i < 5 :: ';' !in Fields(r)[i]
  {
    NoSeparatorInDigits(Decimal(r.serial));
    NoSeparatorInBase64(r.generation);
    NoSeparatorInBase64(r.document);
  }

  lemma JoinFive(f: seq<string>)
    requires |f| == 5
    ensures Join(f, ';') == f[0] + [';'] + (f[1] + [';'] + (f[2] + [';'] + (f[3] + [';'] + f[4])))
  {
    assert f[1..][1..] == f[2..] && f[2..][1..] == f[3..] && f[3..][1..] == f[4..] && f[4..] == [f[4]];
    assert Join(f[3..], ';') == f[3] + [';'] + f[4];
    assert Join(f[2..], ';') == f[2] + [';'] + Join(f[3..], ';');
    assert Join(f[1..], ';') == f[1] + [';'] + Join(f[2..], ';');
  }

  lemma DisplayLength(r: TxtRecord)
    requires r.serial < U64_LIMIT && |r.generation| == KEY_LEN && |r.document| == KEY_LEN
    ensures |Display(r)| <= MAX_RECORD_LEN
  {
    hide Base64.Encode, Decimal;
    JoinFive(Fields(r));
    SerialRoundTrip(r.serial);
  }

  lemma DisplayVersion(r: TxtRecord)
    ensures VersionDigits(Display(r)) == Some("0")
  {
    hide Base64.Encode, Decimal, Join;
    JoinCons(FORMAT_TAG, Fields(r)[1..], ';');
    assert Fields(r) == [FORMAT_TAG] + Fields(r)[1..];
    var rest := Join(Fields(r)[1..], ';');
    assert Display(r) == "v=ONO" + ("0" + [';'] + rest);
    assert Display(r)[|"v=ONO"|..] == "0" + [';'] + rest;
    SplitAt("0", rest, ';');
  }

  lemma DisplayShape(r: TxtRecord)
    requires r.serial < U64_LIMIT && |r.generation| == KEY_LEN && |r.document| == KEY_LEN
    ensures Split(Display(r), ';') == Fields(r) && |Display(r)| <= MAX_RECORD_LEN
    ensures VersionDigits(Display(r)) == Some("0")
  {
    FieldsHoldNoSeparator(r);
    SplitJoin(Fields(r), ';');
    DisplayLength(r);
    DisplayVersion(r);
  }

  lemma {:induction false} KeyFieldRoundTrip(canonical: KeyTest, key: Bytes, prefix: string, field: FieldName)
    requires IsKey(canonical, key)
    ensures DecodeKeyField(canonical, prefix + Base64.Encode(key), prefix, field) == Ok(key)
  {
    Base64.RoundTrip(key);
    hide Base64.Encode, Base64.Decode;
    var text := prefix + Base64.Encode(key);
    assert text[..|prefix|] == prefix && text[|prefix|..] == Base64.Encode(key);
  }

  lemma {:induction false} KeyFieldUnique(canonical: KeyTest, text: string, prefix: string, field: FieldName)
    requires DecodeKeyField(canonical, text, prefix, field).Ok?
    ensures var key := DecodeKeyField(canonical, text, prefix, field).value;
            IsKey(canonical, key) && text == prefix + Base64.Encode(key)
  {
    Base64.Unique(text[|prefix|..]);
    assert text == text[..|prefix|] + text[|prefix|..];
  }

  lemma SerialFieldRoundTrip(n: nat)
    requires n < U64_LIMIT
    ensures ParseSerialField("n=" + Decimal(n)) == Ok(n)
  {
    var text := "n=" + Decimal(n);
    assert text[..2] == "n=" && text[2..] == Decimal(n);
    SerialRoundTrip(n);
  }

  lemma SerialFieldUnique(text: string)
    requires ParseSerialField(text).Ok?
    ensures var n := ParseSerialField(text).value; n < U64_LIMIT && text == "n=" + Decimal(n)
  {
    SerialCanonical(text[2..]);
    assert text == text[..2] + text[2..];
  }

  /** Printing then classifying is the identity, and a print is at most 133 octets. */
  lemma DisplayParses(canonical: KeyTest, r: TxtRecord)
    requires ValidTxt(canonical, r)
    ensures Classify(canonical, Display(r)) == Ok(Binding(r))
    ensures |Display(r)| <= MAX_RECORD_LEN
  {
    hide Base64.Encode, Decimal, DecodeKeyField, ParseSerialField, VersionDigits, Display;
    DisplayShape(r);
    assert AllDigits("0");
    SerialFieldRoundTrip(r.serial);
    KeyFieldRoundTrip(canonical, r.generation, "g=", GenerationField);
    KeyFieldRoundTrip(canonical, r.document, "p=", DocumentField);
  }

  lemma FirstField(raw: string)
    requires VersionDigits(raw) == Some("0")
    ensures Split(raw, ';')[0] == FORMAT_TAG
  {
    assert AllDigits("0");
    hide Split, AllDigits, VersionDigits;
    TaggedMeans(raw, "0");
    if raw == FORMAT_TAG {
      SplitAt(FORMAT_TAG, "", ';');
    } else {
      var rest :| raw == "v=ONO" + "0" + ";" + rest;
      assert raw == FORMAT_TAG + ";" + rest;
      SplitAt(FORMAT_TAG, rest, ';');
    }
  }

  /** Whatever classifies as a binding is the print of its record: one spelling each. */
  lemma BindingPrints(canonical: KeyTest, raw: string)
    requires Classify(canonical, raw).Ok? && Classify(canonical, raw).value.Binding?
    ensures var r := Classify(canonical, raw).value.record;
            ValidTxt(canonical, r) && Display(r) == raw
  {
    hide Base64.Encode, Decimal, DecodeKeyField, ParseSerialField, VersionDigits;
    var r := Classify(canonical, raw).value.record;
    var fields := Split(raw, ';');
    FirstField(raw);
    SerialFieldUnique(fields[2]);
    KeyFieldUnique(canonical, fields[3], "g=", GenerationField);
    KeyFieldUnique(canonical, fields[4], "p=", DocumentField);
    JoinSplit(raw, ';');
    assert fields == Fields(r);
  }

  /** `v=ONO`, these digits, and then either the end or a separator and anything. */
  ghost predicate Tagged(raw: string, digits: string) {
    && digits != "" && AllDigits(digits)
    && (raw == "v=ONO" + digits || exists rest :: raw == "v=ONO" + digits + ";" + rest)
  }

  lemma {:induction false} PieceBefore(rest: string, digits: string)
    requires ';' !in digits
    ensures Split(rest, ';')[0] == digits <==> rest == digits || exists after :: rest == digits + ";" + after
  {
    var pieces := Split(rest, ';');
    if pieces[0] == digits {
      JoinSplit(rest, ';');
      if |pieces| > 1 {
        JoinCons(pieces[0], pieces[1..], ';');
        assert pieces == [pieces[0]] + pieces[1..];
        assert rest == digits + ";" + Join(pieces[1..], ';');
      }
    }
    if rest == digits {
      SplitAt(digits, "", ';');
    }
    if after :| rest == digits + ";" + after {
      SplitAt(digits, after, ';');
    }
  }

  lemma {:induction false} TaggedMeans(raw: string, digits: string)
    requires AllDigits(digits) && digits != ""
    ensures Tagged(raw, digits) <==> VersionDigits(raw) == Some(digits)
  {
    hide AllDigits, Split;
    NoSeparatorInDigits(digits);
    assert Tagged(raw, digits) ==> HasPrefix(raw, "v=ONO");
    if HasPrefix(raw, "v=ONO") {
      var rest := raw[|"v=ONO"|..];
      assert raw == "v=ONO" + rest;
      PieceBefore(rest, digits);
      if Tagged(raw, digits) && raw != "v=ONO" + digits {
        var after :| raw == "v=ONO" + digits + ";" + after;
        assert raw[|"v=ONO"|..] == digits + ";" + after;
      }
      if raw == "v=ONO" + digits {
        assert raw[|"v=ONO"|..] == digits;
      }
      if rest != digits && Split(rest, ';')[0] == digits {
        var after :| rest == digits + ";" + after;
        assert raw == "v=ONO" + digits + ";" + after;
      }
    }
  }

  /**
   A string is of a version not implemented exactly when it is tagged with digits other than "0",
   and no record of this format at all exactly when it is tagged with no digits whatever.
   */
  lemma {:induction false} DispositionExactly(canonical: KeyTest, raw: string)
    ensures Classify(canonical, raw) == Ok(UnknownVersion) <==> exists digits :: digits != "0" && Tagged(raw, digits)
    ensures Classify(canonical, raw) == Ok(UnknownRecord) <==> !exists digits :: Tagged(raw, digits)
  {
    assert AllDigits("0");
    hide AllDigits, ParseOno0, VersionDigits;
    forall digits ensures Tagged(raw, digits) <==>
                          digits != "" && AllDigits(digits) && VersionDigits(raw) == Some(digits) {
      if digits != "" && AllDigits(digits) {
        TaggedMeans(raw, digits);
      }
    }
    if VersionDigits(raw).Some? && VersionDigits(raw).value != "" && AllDigits(VersionDigits(raw).value) {
      assert Tagged(raw, VersionDigits(raw).value);
    }
  }

  /** A string is rejected exactly when it is tagged with "0" and is not the print of a valid record. */
  lemma RejectedExactly(canonical: KeyTest, raw: string)
    ensures Classify(canonical, raw).Err? <==>
            Tagged(raw, "0") && !exists r :: ValidTxt(canonical, r) && Display(r) == raw
  {
    hide Display, ParseOno0;
    assert AllDigits("0");
    TaggedMeans(raw, "0");
    if r :| ValidTxt(canonical, r) && Display(r) == raw {
      DisplayParses(canonical, r);
    }
    if Classify(canonical, raw).Ok? && Classify(canonical, raw).value.Binding? {
      BindingPrints(canonical, raw);
    }
  }

  // ----- which rejection -----

  /** What is wrong with the text of a key field, if anything: the first fault from the outside in. */
  ghost predicate KeyFault(canonical: KeyTest, text: string, prefix: string, field: FieldName, e: TxtError) {
    if !exists encoded :: text == prefix + encoded then e == WrongFieldPrefix(field)
    else exists encoded ::
           && text == prefix + encoded
           && if |encoded| != 44 then e == WrongBase64Length(field, |encoded|)
              else if !exists key :: Base64.Encode(key) == encoded then e == MalformedBase64(field)
              else exists key :: Base64.Encode(key) == encoded
                                 && if |key| != 32 then e == WrongKeyLength(field, |key|)
                                    else !canonical(key) && e == NotACurvePoint(field)
  }

  lemma {:induction false} PrefixExactly(text: string, prefix: string)
    ensures StripPrefix(text, prefix) == None <==> !exists rest :: text == prefix + rest
    ensures forall rest :: StripPrefix(text, prefix) == Some(rest) <==> text == prefix + rest
  {
    if HasPrefix(text, prefix) {
      assert text == prefix + text[|prefix|..];
    }
    forall rest ensures StripPrefix(text, prefix) == Some(rest) <==> text == prefix + rest {
      if text == prefix + rest {
        assert text[..|prefix|] == prefix && text[|prefix|..] == rest;
      }
    }
  }

  lemma {:induction false} KeyFaultExactly(canonical: KeyTest, text: string, prefix: string, field: FieldName,
                                           e: TxtError)
    ensures DecodeKeyField(canonical, text, prefix, field) == Err(e) <==> KeyFault(canonical, text, prefix, field, e)
  {
    hide Base64.Encode, Base64.Decode, StripPrefix;
    PrefixExactly(text, prefix);
    match StripPrefix(text, prefix) {
      case None =>
      case Some(encoded) =>
        assert text == prefix + encoded;
        forall other | text == prefix + other ensures other == encoded {
        }
        forall key ensures Base64.Decode(encoded) == Some(key) <==> Base64.Encode(key) == encoded {
          Base64.RoundTrip(key);
          if Base64.Decode(encoded).Some? { Base64.Unique(encoded); }
        }
    }
  }

  ghost predicate AlgorithmFault(text: string, e: TxtError) {
    && text != "k=ed25519"
    && if exists name :: text == "k=" + name then exists name :: text == "k=" + name && e == UnknownKeyAlgorithm(name)
       else e == WrongFieldPrefix(KeyAlgorithmField)
  }

  ghost predicate SerialFault(text: string, e: TxtError) {
    if exists digits :: text == "n=" + digits
    then exists digits, fault :: text == "n=" + digits && ParseSerial(digits) == Err(fault) && e == BadSerial(fault)
    else e == WrongFieldPrefix(SerialField)
  }

  lemma {:induction false} SerialFaultExactly(text: string, e: TxtError)
    ensures ParseSerialField(text) == Err(e) <==> SerialFault(text, e)
  {
    hide ParseSerial, StripPrefix;
    PrefixExactly(text, "n=");
    if StripPrefix(text, "n=").Some? {
      var digits := StripPrefix(text, "n=").value;
      forall other | text == "n=" + other ensures other == digits {
      }
    }
  }

  /** What is wrong with five fields, if anything: the first field at fault, in order. */
  ghost predicate FieldsFault(canonical: KeyTest, fields: seq<string>, e: TxtError)
    requires |fields| == 5
  {
    || AlgorithmFault(fields[1], e)
    || ((forall f :: !AlgorithmFault(fields[1], f))
        && (|| SerialFault(fields[2], e)
            || ((forall f :: !SerialFault(fields[2], f))
                && (|| KeyFault(canonical, fields[3], "g=", GenerationField, e)
                    || ((forall f :: !KeyFault(canonical, fields[3], "g=", GenerationField, f))
                        && KeyFault(canonical, fields[4], "p=", DocumentField, e))))))
  }

  lemma {:induction false} AlgorithmFaultExactly(text: string)
    ensures text == KEY_ALGORITHM ==> forall e :: !AlgorithmFault(text, e)
    ensures text != KEY_ALGORITHM ==>
              forall e :: AlgorithmFault(text, e) <==>
                          e == match StripPrefix(text, "k=")
                               case Some(name) => UnknownKeyAlgorithm(name)
                               case None => WrongFieldPrefix(KeyAlgorithmField)
  {
    hide StripPrefix;
    PrefixExactly(text, "k=");
  }

  lemma {:induction false} FieldsFaultExactly(canonical: KeyTest, raw: string, e: TxtError)
    requires |raw| <= MAX_RECORD_LEN && |Split(raw, ';')| == 5
    ensures ParseOno0(canonical, raw) == Err(e) <==> FieldsFault(canonical, Split(raw, ';'), e)
  {
    hide ParseSerialField, StripPrefix, DecodeKeyField, KeyFault, SerialFault, AlgorithmFault, Split;
    var fields := Split(raw, ';');
    AlgorithmFaultExactly(fields[1]);
    if fields[1] == KEY_ALGORITHM {
      var serial := ParseSerialField(fields[2]);
      forall f ensures serial == Err(f) <==> SerialFault(fields[2], f) {
        SerialFaultExactly(fields[2], f);
      }
      if serial.Err? {
        assert SerialFault(fields[2], serial.error);
      } else {
        var generation := DecodeKeyField(canonical, fields[3], "g=", GenerationField);
        forall f ensures generation == Err(f) <==> KeyFault(canonical, fields[3], "g=", GenerationField, f) {
          KeyFaultExactly(canonical, fields[3], "g=", GenerationField, f);
        }
        if generation.Err? {
          assert KeyFault(canonical, fields[3], "g=", GenerationField, generation.error);
        } else {
          KeyFaultExactly(canonical, fields[4], "p=", DocumentField, e);
        }
      }
    } else {
      assert AlgorithmFault(fields[1], match StripPrefix(fields[1], "k=")
                                       case Some(name) => UnknownKeyAlgorithm(name)
                                       case None => WrongFieldPrefix(KeyAlgorithmField));
    }
  }

  lemma TaggedIsParsed(canonical: KeyTest, raw: string)
    requires Tagged(raw, "0")
    ensures Classify(canonical, raw).Err? <==> ParseOno0(canonical, raw).Err?
    ensures Classify(canonical, raw).Err? ==> Classify(canonical, raw).error == ParseOno0(canonical, raw).error
  {
    assert AllDigits("0");
    hide ParseOno0, VersionDigits, Tagged;
    TaggedMeans(raw, "0");
  }

  /**
   The rejection of a string tagged "0": over 133 octets, then other than five fields, then the first
   field at fault. The fields are the pieces between separators.
   */
  lemma {:induction false} RejectionMeans(canonical: KeyTest, raw: string, fields: seq<string>, e: TxtError)
    requires Tagged(raw, "0")
    requires fields != [] && (forall i | 0 <= i < |fields| :: ';' !in fields[i]) && Join(fields, ';') == raw
    ensures Classify(canonical, raw) == Err(e) <==>
            if |raw| > 133 then e == RecordTooLong(|raw|)
            else if |fields| != 5 then e == WrongFieldCount(|fields|)
            else FieldsFault(canonical, fields, e)
  {
    TaggedIsParsed(canonical, raw);
    hide FieldsFault, Classify, Tagged, Split, Join, ParseSerialField, DecodeKeyField;
    SplitJoin(fields, ';');
    if |raw| <= 133 && |fields| == 5 {
      FieldsFaultExactly(canonical, raw, e);
    }
  }
}
