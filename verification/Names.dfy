/**
 Canonical DNS owner names (onomancy_dnssec/src/wire/name.rs): labels from the most
 specific to the root end, written uncompressed and in lower case.
 */
module Names {
  import opened Wrappers
  import opened Wire

  type Label = Bytes

  /** Labels, leftmost (most specific) first; the root has none. */
  type Name = seq<Label>

  const MAX_WIRE_LEN: nat := 255
  const MAX_LABEL_LEN: nat := 63
  const ROOT: Name := []

  /** The bytes of `_onomancy`. */
  const SERVICE_LABEL: Label := [95, 111, 110, 111, 109, 97, 110, 99, 121]

  datatype NameError =
    | NotCanonical
    | NameTooLong
    | InName(wire: WireError)

  predicate IsUpper(b: byte) {
    65 <= b <= 90
  }

  predicate ValidLabel(l: Label) {
    1 <= |l| <= MAX_LABEL_LEN && forall i | 0 <= i < |l| :: !IsUpper(l[i])
  }

  predicate ValidLabels(n: Name) {
    forall i | 0 <= i < |n| :: ValidLabel(n[i])
  }

  /** Octets on the wire: every label with its length octet, and the root octet. */
  function WireLen(n: Name): (len: nat)
    ensures len > |n|
  {
    if n == [] then 1 else 1 + |n[0]| + WireLen(n[1..])
  }

  predicate ValidName(n: Name) {
    ValidLabels(n) && WireLen(n) <= MAX_WIRE_LEN
  }

  // ----- ancestry -----

  /** Whether `zone` is `name` or an ancestor of it: the same labels, compared from the root end. */
  predicate IsAncestorOrSelf(zone: Name, name: Name) {
    |zone| <= |name| && forall i | 0 <= i < |zone| :: name[|name| - |zone| + i] == zone[i]
  }

  /** The suffix of `n` that keeps its `k` labels nearest the root. */
  function TrimTo(n: Name, k: nat): Name {
    if k < |n| then n[|n| - k..] else n
  }

  /** Two ancestors of one name are ancestors of each other, the shorter above. */
  lemma AncestorsNest(a: Name, b: Name, name: Name)
    requires IsAncestorOrSelf(a, name) && IsAncestorOrSelf(b, name) && |a| <= |b|
    ensures IsAncestorOrSelf(a, b)
  {
    forall i | 0 <= i < |a|
      ensures b[|b| - |a| + i] == a[i]
    {
      assert name[|name| - |b| + (|b| - |a| + i)] == b[|b| - |a| + i];
    }
  }

  lemma TrimIsAncestor(name: Name, k: nat)
    requires k <= |name|
    ensures |TrimTo(name, k)| == k && IsAncestorOrSelf(TrimTo(name, k), name)
  {
  }

  // ----- wire form -----

  /** The length octet is a truncating cast, exact for labels of at most 63 octets. */
  function WriteName(n: Name): (b: Bytes)
    ensures |b| == WireLen(n)
  {
    if n == [] then [0] else [(|n[0]| % 256) as byte] + n[0] + WriteName(n[1..])
  }

  predicate HasUpper(l: Label) {
    exists i | 0 <= i < |l| :: IsUpper(l[i])
  }

  /** One label, or none at the root octet; `wireLen` counts the octets of the name already read. */
  function ReadLabel(b: Bytes, wireLen: nat): (r: Result<(Label, Bytes), NameError>)
    ensures r.Ok? ==> |r.value.1| < |b|
  {
    if b == [] then Err(InName(Truncated(1, 0)))
    else
      var len, rest := b[0] as nat, b[1..];
      if len == 0 then Ok(([], rest))
      // The two high bits mark a compression pointer or a reserved label type.
      else if len >= 64 then Err(NotCanonical)
      else if wireLen + 1 + len > MAX_WIRE_LEN then Err(NameTooLong)
      else if len > |rest| then Err(InName(Truncated(len, |rest|)))
      else if HasUpper(rest[..len]) then Err(NotCanonical)
      else Ok((rest[..len], rest[len..]))
  }

  function ReadLabels(b: Bytes, wireLen: nat): (r: Result<(Name, Bytes), NameError>)
    ensures r.Ok? ==> |r.value.1| < |b|
    decreases |b|
  {
    var (first, rest) :- ReadLabel(b, wireLen);
    if first == [] then Ok(([], rest))
    else
      var (labels, after) :- ReadLabels(rest, wireLen + 1 + |first|);
      Ok(([first] + labels, after))
  }

  function ReadName(b: Bytes): (r: Result<(Name, Bytes), NameError>)
    ensures r.Ok? ==> |r.value.1| < |b|
  {
    ReadLabels(b, 1)
  }

  lemma WriteRoot()
    ensures WriteName([]) == [0]
  {
  }

  lemma WriteNameCons(l: Label, n: Name, tail: Bytes)
    requires ValidLabel(l) && ValidLabels(n)
    ensures ValidLabels([l] + n) && WireLen([l] + n) == 1 + |l| + WireLen(n)
    ensures WriteName([l] + n) + tail == [(|l| % 256) as byte] + (l + (WriteName(n) + tail))
  {
    assert ([l] + n)[1..] == n;
  }

  lemma ReadLabelCanonical(b: Bytes, wireLen: nat)
    requires ReadLabel(b, wireLen).Ok?
    ensures var (l, rest) := ReadLabel(b, wireLen).value;
            && (l == [] ==> b == [0] + rest)
            && (l != [] ==> ValidLabel(l) && wireLen + 1 + |l| <= MAX_WIRE_LEN
                            && b == [(|l| % 256) as byte] + (l + rest))
  {
    var (l, rest) := ReadLabel(b, wireLen).value;
    assert b == [b[0]] + b[1..];
    if l != [] {
      assert b[1..] == l + rest;
    }
  }

  lemma ReadLabelPrefix(l: Label, more: Bytes, wireLen: nat)
    requires ValidLabel(l) && wireLen + 1 + |l| <= MAX_WIRE_LEN
    ensures ReadLabel([(|l| % 256) as byte] + (l + more), wireLen) == Ok((l, more))
  {
    var b := [(|l| % 256) as byte] + (l + more);
    assert b[0] as nat == |l|;
    assert b[1..] == l + more;
    assert (l + more)[..|l|] == l && (l + more)[|l|..] == more;
  }

  lemma {:induction false} ReadLabelsCanonical(b: Bytes, wireLen: nat)
    requires ReadLabels(b, wireLen).Ok? && 1 <= wireLen <= MAX_WIRE_LEN
    ensures var (n, rest) := ReadLabels(b, wireLen).value;
            ValidLabels(n) && wireLen - 1 + WireLen(n) <= MAX_WIRE_LEN && b == WriteName(n) + rest
    decreases |b|
  {
    hide ReadLabel, WriteName;
    WriteRoot();
    ReadLabelCanonical(b, wireLen);
    var (first, rest) := ReadLabel(b, wireLen).value;
    if first != [] {
      ReadLabelsCanonical(rest, wireLen + 1 + |first|);
      var (labels, after) := ReadLabels(rest, wireLen + 1 + |first|).value;
      WriteNameCons(first, labels, after);
    }
  }

  lemma ReadRoot(tail: Bytes, wireLen: nat)
    ensures ReadLabels(WriteName([]) + tail, wireLen) == Ok(([], tail))
  {
    assert (WriteName([]) + tail)[1..] == tail;
  }

  lemma ReadLabelsCons(l: Label, more: Bytes, wireLen: nat)
    requires ValidLabel(l) && wireLen + 1 + |l| <= MAX_WIRE_LEN
    ensures ReadLabels([(|l| % 256) as byte] + (l + more), wireLen)
            == match ReadLabels(more, wireLen + 1 + |l|)
               case Err(e) => Err(e)
               case Ok((labels, after)) => Ok(([l] + labels, after))
  {
    ReadLabelPrefix(l, more, wireLen);
  }

  lemma {:induction false} ReadLabelsPrefix(n: Name, tail: Bytes, wireLen: nat)
    requires ValidLabels(n) && 1 <= wireLen && wireLen - 1 + WireLen(n) <= MAX_WIRE_LEN
    ensures ReadLabels(WriteName(n) + tail, wireLen) == Ok((n, tail))
  {
    hide ReadLabels, WriteName;
    if n == [] {
      ReadRoot(tail, wireLen);
    } else {
      var more := WriteName(n[1..]) + tail;
      assert n == [n[0]] + n[1..];
      WriteNameCons(n[0], n[1..], tail);
      ReadLabelsCons(n[0], more, wireLen);
      ReadLabelsPrefix(n[1..], tail, wireLen + 1 + |n[0]|);
    }
  }

  /** Each name has one spelling, and every spelling that reads is it. */
  lemma NameCanonical(b: Bytes)
    requires ReadName(b).Ok?
    ensures var (n, rest) := ReadName(b).value; ValidName(n) && b == WriteName(n) + rest
  {
    ReadLabelsCanonical(b, 1);
  }

  lemma NamePrefix(n: Name, tail: Bytes)
    requires ValidName(n)
    ensures ReadName(WriteName(n) + tail) == Ok((n, tail))
  {
    ReadLabelsPrefix(n, tail, 1);
  }

  /** The labels of a name on the wire, each behind the octet that counts it. */
  ghost function Counted(n: Name): seq<Bytes>
    requires forall l | l in n :: |l| < 256
  {
    seq(|n|, i requires 0 <= i < |n| => [|n[i]| as byte] + n[i])
  }

  lemma {:induction false} WrittenLabels(n: Name)
    requires forall l | l in n :: |l| < 256
    ensures WriteName(n) == Joined(Counted(n)) + [0]
  {
    if n != [] {
      WrittenLabels(n[1..]);
      assert Counted(n)[1..] == Counted(n[1..]);
    }
  }

  /**
   What reads as a name: counted labels of 1 to 63 octets without the letters 'A' to 'Z', closed by
   a zero octet, 255 octets in all.
   */
  lemma NameExactly(b: Bytes, n: Name, rest: Bytes)
    ensures ReadName(b) == Ok((n, rest)) <==>
            && (forall l | l in n :: 1 <= |l| <= 63 && forall c | c in l :: !('A' as int <= c as int <= 'Z' as int))
            && b == Joined(Counted(n)) + [0] + rest
            && |b| - |rest| <= 255
  {
    if ReadName(b) == Ok((n, rest)) {
      NameCanonical(b);
      forall l | l in n
        ensures ValidLabel(l)
      {
      }
      WrittenLabels(n);
    }
    if
      && (forall l | l in n :: 1 <= |l| <= 63 && forall c | c in l :: !('A' as int <= c as int <= 'Z' as int))
      && b == Joined(Counted(n)) + [0] + rest
      && |b| - |rest| <= 255
    {
      forall i | 0 <= i < |n|
        ensures ValidLabel(n[i])
      {
        assert n[i] in n;
        forall k | 0 <= k < |n[i]|
          ensures !IsUpper(n[i][k])
        {
          assert n[i][k] in n[i];
        }
      }
      WrittenLabels(n);
      NamePrefix(n, rest);
    }
  }

  // ----- over a cursor -----

  /** What reading on after `labels` yields. */
  ghost function Resume(labels: Name, r: Result<(Name, Bytes), NameError>): Result<(Name, Bytes), NameError> {
    match r
    case Err(e) => Err(e)
    case Ok((more, rest)) => Ok((labels + more, rest))
  }

  lemma ResumeStep(labels: Name, b: Bytes, wireLen: nat)
    ensures Resume(labels, ReadLabels(b, wireLen)) ==
            match ReadLabel(b, wireLen)
            case Err(e) => Err(e)
            case Ok((first, rest)) =>
              if first == [] then Ok((labels, rest))
              else Resume(labels + [first], ReadLabels(rest, wireLen + 1 + |first|))
  {
    hide ReadLabel;
    assert labels + [] == labels;
    if ReadLabel(b, wireLen).Ok? {
      var (first, rest) := ReadLabel(b, wireLen).value;
      if first != [] && ReadLabels(rest, wireLen + 1 + |first|).Ok? {
        var more := ReadLabels(rest, wireLen + 1 + |first|).value.0;
        assert labels + ([first] + more) == labels + [first] + more;
      }
    }
  }

  lemma ResumeNone(r: Result<(Name, Bytes), NameError>)
    ensures Resume([], r) == r
  {
    if r.Ok? {
      assert [] + r.value.0 == r.value.0;
    }
  }

  /** One label from a cursor; none at the root octet. */
  method TakeLabel(reader: Reader, wireLen: nat) returns (r: Result<Label, NameError>)
    requires reader.Valid()
    modifies reader`pos
    ensures reader.Valid()
    ensures Agrees(ReadLabel(old(reader.Rest()), wireLen), r, reader.Rest())
  {
    var head := reader.Take(1);
    if head.Err? {
      return Err(InName(head.error));
    }
    var len := head.value[0] as nat;
    if len == 0 {
      return Ok([]);
    }
    if len >= 64 {
      return Err(NotCanonical);
    }
    if wireLen + 1 + len > MAX_WIRE_LEN {
      return Err(NameTooLong);
    }
    var octets := reader.Take(len);
    if octets.Err? {
      return Err(InName(octets.error));
    }
    if HasUpper(octets.value) {
      return Err(NotCanonical);
    }
    return Ok(octets.value);
  }

  /** One name from a cursor: exactly the octets of a valid name, which it leaves behind. */
  method TakeName(reader: Reader) returns (r: Result<Name, NameError>)
    requires reader.Valid()
    modifies reader`pos
    ensures reader.Valid()
    ensures Agrees(ReadName(old(reader.Rest())), r, reader.Rest())
    ensures r.Ok? ==> ValidName(r.value) && old(reader.Rest()) == WriteName(r.value) + reader.Rest()
  {
    hide ReadLabel, ReadLabels, Resume;
    var labels: Name := [];
    var wireLen: nat := 1;
    ghost var start := reader.Rest();
    ResumeNone(ReadLabels(start, 1));
    while true
      invariant reader.Valid()
      invariant Resume(labels, ReadLabels(reader.Rest(), wireLen)) == ReadName(start)
      decreases |reader.Rest()|
    {
      ResumeStep(labels, reader.Rest(), wireLen);
      var next :- TakeLabel(reader, wireLen);
      if next == [] {
        NameCanonical(start);
        return Ok(labels);
      }
      labels := labels + [next];
      wireLen := wireLen + 1 + |next|;
    }
  }
}
