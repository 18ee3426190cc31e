/**
 The certificate payload: the signed binding of a hostname to a root document
 (onomancy_dnssec/src/certificate/binding.rs, and `read_heads` of certificate.rs).
 */
module Bindings {
  import opened Wrappers
  import opened Wire
  import opened Ordering
  import opened DnsNames
  import opened SignedUnits
  import opened Statements

  const HEAD_LEN: nat := 32
  const BINDING_TAG: Bytes := [0x4f, 0x4e, 0x43, 0]

  datatype Binding = Binding(
    rootDoc: Bytes,
    signer: Bytes,
    issuedAt: nat,
    hostname: Bytes,
    heads: seq<Bytes>,
    predecessor: Option<Statement<Succession>>)

  // ----- heads -----

  ghost predicate ValidHeads(heads: seq<Bytes>) {
    && |heads| < U64_LIMIT
    && (forall h | h in heads :: |h| == 32)
    && StrictlySorted(BytesLess, heads)
  }

  function WriteHeads(heads: seq<Bytes>): Bytes {
    if heads == [] then [] else heads[0] + WriteHeads(heads[1..])
  }

  /** `count` heads, each above the one before it. */
  function ReadHeads(b: Bytes, count: nat, previous: Option<Bytes>): UnitRead<seq<Bytes>>
    decreases count
  {
    if count == 0 then Ok(([], b))
    else
      var (head, rest) :- Lift(ReadBytes(b, HEAD_LEN));
      if previous.Some? && !BytesLess(previous.value, head) then Err(HeadsNotCanonical)
      else
        var (more, after) :- ReadHeads(rest, count - 1, Some(head));
        Ok(([head] + more, after))
  }

  function WriteHeadList(c: Varint, heads: seq<Bytes>): Bytes {
    c.encode(|heads|) + WriteHeads(heads)
  }

  function ReadHeadList(c: Varint, b: Bytes): UnitRead<seq<Bytes>> {
    var (count, rest) :- Lift(ReadLength(c, b, HEAD_LEN));
    ReadHeads(rest, count, None)
  }

  ghost predicate Above(previous: Option<Bytes>, heads: seq<Bytes>) {
    previous.Some? && heads != [] ==> BytesLess(previous.value, heads[0])
  }

  lemma ValidHeadsTail(heads: seq<Bytes>)
    requires ValidHeads(heads) && heads != []
    ensures |heads[0]| == HEAD_LEN && ValidHeads(heads[1..]) && Above(Some(heads[0]), heads[1..])
  {
    hide BytesLess;
  }

  lemma {:induction false} HeadsPrefix(heads: seq<Bytes>, tail: Bytes, previous: Option<Bytes>)
    requires ValidHeads(heads) && Above(previous, heads)
    ensures ReadHeads(WriteHeads(heads) + tail, |heads|, previous) == Ok((heads, tail))
    ensures |WriteHeads(heads)| == HEAD_LEN * |heads|
    decreases |heads|
  {
    hide BytesLess, ValidHeads;
    if heads == [] {
      assert [] + tail == tail;
    } else {
      ValidHeadsTail(heads);
      var more := WriteHeads(heads[1..]) + tail;
      Assoc(heads[0], WriteHeads(heads[1..]), tail);
      assert (heads[0] + more)[..HEAD_LEN] == heads[0] && (heads[0] + more)[HEAD_LEN..] == more;
      HeadsPrefix(heads[1..], tail, Some(heads[0]));
      assert heads == [heads[0]] + heads[1..];
    }
  }

  lemma NoHeads()
    ensures WriteHeads([]) == []
  {
  }

  lemma SortedCons(head: Bytes, more: seq<Bytes>)
    requires StrictlySorted(BytesLess, more) && Above(Some(head), more)
    ensures StrictlySorted(BytesLess, [head] + more)
  {
    hide BytesLess;
    forall j | 0 <= j < |more|
      ensures BytesLess(head, more[j])
    {
      if j > 0 {
        BytesTransitive(head, more[0], more[j]);
      }
    }
  }

  /** What reading a list of heads establishes of them. */
  ghost predicate HeadsRead(b: Bytes, count: nat, previous: Option<Bytes>, heads: seq<Bytes>, rest: Bytes) {
    && |heads| == count && (forall h | h in heads :: |h| == HEAD_LEN)
    && StrictlySorted(BytesLess, heads) && Above(previous, heads)
    && b == WriteHeads(heads) + rest
  }

  lemma {:induction false} HeadsReadCons(b: Bytes, count: nat, previous: Option<Bytes>, head: Bytes, b1: Bytes,
                                         more: seq<Bytes>, rest: Bytes)
    requires b == head + b1 && |head| == HEAD_LEN
    requires previous.None? || BytesLess(previous.value, head)
    requires HeadsRead(b1, count, Some(head), more, rest)
    ensures HeadsRead(b, count + 1, previous, [head] + more, rest)
  {
    hide BytesLess, StrictlySorted;
    SortedCons(head, more);
    assert ([head] + more)[1..] == more;
    assert WriteHeads([head] + more) == head + WriteHeads(more);
    Assoc(head, WriteHeads(more), rest);
  }

  lemma {:induction false} HeadsCanonical(b: Bytes, count: nat, previous: Option<Bytes>)
    requires ReadHeads(b, count, previous).Ok?
    ensures var (heads, rest) := ReadHeads(b, count, previous).value; HeadsRead(b, count, previous, heads, rest)
    decreases count
  {
    hide BytesLess, HeadsRead;
    if count == 0 {
      NoHeadsRead(b, previous);
    } else {
      var (head, b1) := ReadBytes(b, HEAD_LEN).value;
      HeadsCanonical(b1, count - 1, Some(head));
      var (more, rest) := ReadHeads(b1, count - 1, Some(head)).value;
      assert b == head + b1;
      HeadsReadCons(b, count - 1, previous, head, b1, more, rest);
    }
  }

  lemma NoHeadsRead(b: Bytes, previous: Option<Bytes>)
    ensures HeadsRead(b, 0, previous, [], b)
  {
    assert [] + b == b;
  }

  /** Exactly the sorted, duplicate-free lists of 32-octet heads have a spelling, and one each. */
  lemma HeadListPrefix(c: Varint, heads: seq<Bytes>, tail: Bytes)
    requires ValidHeads(heads)
    ensures ReadHeadList(c, WriteHeadList(c, heads) + tail) == Ok((heads, tail))
  {
    hide ReadHeads, WriteHeads;
    HeadsPrefix(heads, tail, None);
    assert WriteHeadList(c, heads) + tail == c.encode(|heads|) + (WriteHeads(heads) + tail);
    LengthPrefix(c, |heads|, WriteHeads(heads) + tail, HEAD_LEN);
  }

  lemma HeadListCanonical(c: Varint, b: Bytes)
    requires ReadHeadList(c, b).Ok?
    ensures var (heads, rest) := ReadHeadList(c, b).value; ValidHeads(heads) && b == WriteHeadList(c, heads) + rest
  {
    hide ReadHeads, WriteHeads;
    var (count, rest) := ReadLength(c, b, HEAD_LEN).value;
    HeadsCanonical(rest, count, None);
  }

  // ----- the predecessor -----

  ghost predicate ValidPredecessor(s: Suite, p: Option<Statement<Succession>>) {
    p.Some? ==> ValidStatement(s, SuccessionKind(s), SuccessionOk(s), p.value)
  }

  /** Absence is length zero, not a flag. */
  function WritePredecessor(s: Suite, p: Option<Statement<Succession>>): Bytes {
    match p
    case None => s.varint.encode(0)
    case Some(u) =>
      var unit := EncodeStatement(s, SuccessionKind(s), u);
      s.varint.encode(|unit|) + unit
  }

  function ReadPredecessor(s: Suite, b: Bytes): UnitRead<Option<Statement<Succession>>> {
    var (len, b1) :- Lift(ReadLength(s.varint, b, 1));
    if len == 0 then Ok((None, b1))
    else
      var (unit, rest) :- Lift(ReadBytes(b1, len));
      match DecodeStatement(s, SuccessionKind(s), unit)
      case Ok(u) => Ok((Some(u), rest))
      case Err(e) => Err(BadPredecessor(e))
  }

  lemma StatementNotEmpty<P>(s: Suite, k: PayloadKind<P>, u: Statement<P>)
    requires |k.tag| == TAG_LEN
    ensures |EncodeStatement(s, k, u)| >= TAG_LEN
  {
  }

  lemma PredecessorPrefix(s: Suite, p: Option<Statement<Succession>>, tail: Bytes)
    requires ValidPredecessor(s, p)
    ensures ReadPredecessor(s, WritePredecessor(s, p) + tail) == Ok((p, tail))
  {
    hide EncodeStatement, DecodeStatement;
    match p {
      case None => LengthPrefix(s.varint, 0, tail, 1);
      case Some(u) =>
        var k := SuccessionKind(s);
        var unit := EncodeStatement(s, k, u);
        SuccessionLaws(s);
        StatementRoundTrip(s, k, SuccessionOk(s), u);
        StatementNotEmpty(s, k, u);
        assert WritePredecessor(s, p) + tail == s.varint.encode(|unit|) + (unit + tail);
        LengthPrefix(s.varint, |unit|, unit + tail, 1);
        assert (unit + tail)[..|unit|] == unit && (unit + tail)[|unit|..] == tail;
    }
  }

  lemma PredecessorCanonical(s: Suite, b: Bytes)
    requires ReadPredecessor(s, b).Ok?
    ensures var (p, rest) := ReadPredecessor(s, b).value; ValidPredecessor(s, p) && b == WritePredecessor(s, p) + rest
  {
    hide EncodeStatement, DecodeStatement, ValidStatement;
    var (len, b1) := ReadLength(s.varint, b, 1).value;
    if len != 0 {
      var unit := b1[..len];
      SuccessionLaws(s);
      StatementCanonical(s, SuccessionKind(s), SuccessionOk(s), unit);
      assert b1 == unit + b1[len..];
    }
  }

  // ----- the payload -----

  ghost predicate ValidBinding(s: Suite, r: Binding) {
    && IsKey(s, r.rootDoc)
    && IsKey(s, r.signer)
    && r.issuedAt < U64_LIMIT
    && ValidHostname(r.hostname)
    && ValidHeads(r.heads)
    && ValidPredecessor(s, r.predecessor)
  }

  function EncodeBinding(s: Suite, r: Binding): Bytes {
    r.rootDoc + (r.signer + (s.varint.encode(r.issuedAt) + (WriteHostname(s, r.hostname) +
    (WriteHeadList(s.varint, r.heads) + WritePredecessor(s, r.predecessor)))))
  }

  function DecodeBinding(s: Suite, b: Bytes): UnitRead<Binding> {
    var (rootDoc, b1) :- ReadKey(s, 1, b);
    var (signer, b2) :- ReadKey(s, 2, b1);
    var (issuedAt, b3) :- Lift(ReadVarint(s.varint, b2));
    var (hostname, b4) :- ReadHostname(s, b3);
    var (heads, b5) :- ReadHeadList(s.varint, b4);
    var (predecessor, rest) :- ReadPredecessor(s, b5);
    Ok((Binding(rootDoc, signer, issuedAt, hostname, heads, predecessor), rest))
  }

  function BindingKind(s: Suite): PayloadKind<Binding> {
    PayloadKind(BINDING_TAG, (r: Binding) => EncodeBinding(s, r), (b: Bytes) => DecodeBinding(s, b),
                (r: Binding) => r.signer)
  }

  ghost function BindingOk(s: Suite): Binding -> bool {
    (r: Binding) => ValidBinding(s, r)
  }

  lemma BindingPrefix(s: Suite, r: Binding, tail: Bytes)
    requires ValidBinding(s, r)
    ensures DecodeBinding(s, EncodeBinding(s, r) + tail) == Ok((r, tail))
  {
    hide ReadKey, ReadVarint, ReadHostname, WriteHostname, ReadHeadList, WriteHeadList, ReadPredecessor,
         WritePredecessor,
         ValidHostname, ValidHeads, ValidPredecessor;
    var b5 := WritePredecessor(s, r.predecessor) + tail;
    var b4 := WriteHeadList(s.varint, r.heads) + b5;
    var b3 := WriteHostname(s, r.hostname) + b4;
    var b2 := s.varint.encode(r.issuedAt) + b3;
    var b1 := r.signer + b2;
    assert EncodeBinding(s, r) + tail == r.rootDoc + b1;
    KeyPrefix(s, 1, r.rootDoc, b1);
    KeyPrefix(s, 2, r.signer, b2);
    VarintPrefix(s.varint, r.issuedAt, b3);
    HostnamePrefix(s, r.hostname, b4);
    HeadListPrefix(s.varint, r.heads, b5);
    PredecessorPrefix(s, r.predecessor, tail);
  }

  lemma BindingCanonical(s: Suite, b: Bytes)
    requires DecodeBinding(s, b).Ok?
    ensures var (r, rest) := DecodeBinding(s, b).value; ValidBinding(s, r) && b == EncodeBinding(s, r) + rest
  {
    hide ReadKey, ReadHostname, WriteHostname, ReadHeadList, WriteHeadList, ReadPredecessor, WritePredecessor,
         ValidHostname, ValidHeads, ValidPredecessor;
    KeyCanonical(s, 1, b);
    var (rootDoc, b1) := ReadKey(s, 1, b).value;
    KeyCanonical(s, 2, b1);
    var (signer, b2) := ReadKey(s, 2, b1).value;
    var (issuedAt, b3) := ReadVarint(s.varint, b2).value;
    HostnameCanonical(s, b3);
    var (hostname, b4) := ReadHostname(s, b3).value;
    HeadListCanonical(s.varint, b4);
    var (heads, b5) := ReadHeadList(s.varint, b4).value;
    PredecessorCanonical(s, b5);
    var (predecessor, rest) := ReadPredecessor(s, b5).value;
    var r := Binding(rootDoc, signer, issuedAt, hostname, heads, predecessor);
    assert b == EncodeBinding(s, r) + rest;
  }

  lemma BindingLaws(s: Suite)
    ensures LawfulKind(BindingKind(s), BindingOk(s))
  {
    hide EncodeBinding, DecodeBinding, ValidBinding;
    var k, ok := BindingKind(s), BindingOk(s);
    forall r: Binding, tail: Bytes | ok(r)
      ensures k.decode(k.encode(r) + tail) == Ok((r, tail))
    {
      BindingPrefix(s, r, tail);
    }
    forall b: Bytes | k.decode(b).Ok?
      ensures var (r, rest) := k.decode(b).value; ok(r) && b == k.encode(r) + rest
    {
      BindingCanonical(s, b);
    }
  }

  // ----- over a buffer and a cursor -----

  lemma {:induction false} WriteHeadsSnoc(heads: seq<Bytes>, head: Bytes)
    ensures WriteHeads(heads + [head]) == WriteHeads(heads) + head
  {
    if heads == [] {
      assert heads + [head] == [head];
      assert head + [] == head;
    } else {
      assert (heads + [head])[1..] == heads[1..] + [head];
      WriteHeadsSnoc(heads[1..], head);
    }
  }

  /** Finish a partly read list of heads. */
  ghost function Continue(done: seq<Bytes>, r: UnitRead<seq<Bytes>>): UnitRead<seq<Bytes>> {
    match r
    case Ok((more, rest)) => Ok((done + more, rest))
    case Err(e) => Err(e)
  }

  ghost function Last(done: seq<Bytes>): Option<Bytes> {
    if done == [] then None else Some(done[|done| - 1])
  }

  lemma ReadHeadsStep(b: Bytes, count: nat, done: seq<Bytes>)
    requires count > 0
    ensures Continue(done, ReadHeads(b, count, Last(done))) ==
            match ReadBytes(b, HEAD_LEN)
            case Err(e) => Err(BadWire(e))
            case Ok((head, rest)) =>
              if Last(done).Some? && !BytesLess(Last(done).value, head) then Err(HeadsNotCanonical)
              else Continue(done + [head], ReadHeads(rest, count - 1, Last(done + [head])))
  {
    hide BytesLess;
    if ReadBytes(b, HEAD_LEN).Ok? {
      var (head, rest) := ReadBytes(b, HEAD_LEN).value;
      if ReadHeads(rest, count - 1, Some(head)).Ok? {
        var more := ReadHeads(rest, count - 1, Some(head)).value.0;
        assert done + ([head] + more) == done + [head] + more;
      }
    }
  }

  lemma {:induction false} ReadHeadsEnds(b: Bytes, r: UnitRead<seq<Bytes>>, done: seq<Bytes>, previous: Option<Bytes>)
    ensures Continue([], r) == r
    ensures Continue(done, ReadHeads(b, 0, previous)) == Ok((done, b))
  {
    if r.Ok? {
      assert [] + r.value.0 == r.value.0;
    }
    assert done + [] == done;
  }

  method TakeHeads(reader: Reader, c: Varint) returns (r: Result<seq<Bytes>, UnitError>)
    requires reader.Valid()
    modifies reader`pos
    ensures reader.Valid()
    ensures Agrees(ReadHeadList(c, old(reader.Rest())), r, reader.Rest())
  {
    hide BytesLess, ReadHeads, Continue;
    var len := reader.BoundedLen(c, HEAD_LEN);
    if len.Err? {
      return Err(BadWire(len.error));
    }
    var count := len.value;
    var heads: seq<Bytes> := [];
    ghost var all := ReadHeads(reader.Rest(), count, None);
    ReadHeadsEnds([], all, [], None);
    for i := 0 to count
      invariant reader.Valid()
      invariant Continue(heads, ReadHeads(reader.Rest(), count - i, Last(heads))) == all
    {
      ReadHeadsStep(reader.Rest(), count - i, heads);
      var taken := reader.Take(HEAD_LEN);
      if taken.Err? {
        return Err(BadWire(taken.error));
      }
      var head := taken.value;
      if heads != [] && !BytesLess(heads[|heads| - 1], head) {
        return Err(HeadsNotCanonical);
      }
      heads := heads + [head];
    }
    ReadHeadsEnds(reader.Rest(), all, heads, Last(heads));
    return Ok(heads);
  }

  method TakePredecessor(reader: Reader, s: Suite) returns (r: Result<Option<Statement<Succession>>, UnitError>)
    requires reader.Valid()
    modifies reader`pos
    ensures reader.Valid()
    ensures Agrees(ReadPredecessor(s, old(reader.Rest())), r, reader.Rest())
  {
    hide DecodeStatement;
    var len := reader.BoundedLen(s.varint, 1);
    if len.Err? {
      return Err(BadWire(len.error));
    }
    if len.value == 0 {
      return Ok(None);
    }
    var taken := reader.Take(len.value);
    match taken {
      case Err(e) => return Err(BadWire(e));
      case Ok(unit) =>
        var statement := DecodeSuccessionUnit(s, unit);
        match statement {
          case Ok(u) => return Ok(Some(u));
          case Err(e) => return Err(BadPredecessor(e));
        }
    }
  }

  method DecodeBindingFields(reader: Reader, s: Suite) returns (r: Result<Binding, UnitError>)
    requires reader.Valid()
    modifies reader`pos
    ensures reader.Valid()
    ensures Agrees(DecodeBinding(s, old(reader.Rest())), r, reader.Rest())
  {
    hide ReadKey, ReadHostname, ReadHeadList, ReadPredecessor;
    var rootDoc :- TakeKey(reader, s, 1);
    var signer :- TakeKey(reader, s, 2);
    var issuedAt := reader.TakeVarint(s.varint);
    if issuedAt.Err? {
      return Err(BadWire(issuedAt.error));
    }
    var hostname :- TakeHostname(reader, s);
    var heads :- TakeHeads(reader, s.varint);
    var predecessor :- TakePredecessor(reader, s);
    return Ok(Binding(rootDoc, signer, issuedAt.value, hostname, heads, predecessor));
  }

  method PutHeads(buf: Buffer, c: Varint, heads: seq<Bytes>)
    modifies buf
    ensures buf.bytes == old(buf.bytes) + WriteHeadList(c, heads)
  {
    hide WriteHeads;
    buf.PutVarint(c, |heads|);
    ghost var start := buf.bytes;
    NoHeads();
    assert start + [] == start;
    for i := 0 to |heads|
      invariant buf.bytes == start + WriteHeads(heads[..i])
    {
      WriteHeadsSnoc(heads[..i], heads[i]);
      assert heads[..i] + [heads[i]] == heads[..i + 1];
      Assoc(start, WriteHeads(heads[..i]), heads[i]);
      buf.Extend(heads[i]);
    }
    assert heads[..|heads|] == heads;
    Assoc(old(buf.bytes), c.encode(|heads|), WriteHeads(heads));
  }

  method PutPredecessor(buf: Buffer, s: Suite, p: Option<Statement<Succession>>)
    modifies buf
    ensures buf.bytes == old(buf.bytes) + WritePredecessor(s, p)
  {
    hide EncodeStatement;
    match p {
      case None => buf.PutVarint(s.varint, 0);
      case Some(u) =>
        var unit := EncodeSuccessionUnit(s, u);
        buf.PutVarint(s.varint, |unit|);
        buf.Extend(unit);
    }
  }

  method EncodeBindingFields(buf: Buffer, s: Suite, r: Binding)
    modifies buf
    ensures buf.bytes == old(buf.bytes) + EncodeBinding(s, r)
  {
    hide WriteHostname, WriteHeadList, WritePredecessor;
    buf.Extend(r.rootDoc);
    buf.Extend(r.signer);
    buf.PutVarint(s.varint, r.issuedAt);
    PutHostname(buf, s, r.hostname);
    PutHeads(buf, s.varint, r.heads);
    PutPredecessor(buf, s, r.predecessor);
    Nest6(old(buf.bytes), r.rootDoc, r.signer, s.varint.encode(r.issuedAt), WriteHostname(s, r.hostname),
          WriteHeadList(s.varint, r.heads), WritePredecessor(s, r.predecessor));
  }

  lemma {:induction false} Nest6(z: Bytes, a: Bytes, b: Bytes, c: Bytes, d: Bytes, e: Bytes, f: Bytes)
    ensures z + a + b + c + d + e + f == z + (a + (b + (c + (d + (e + f)))))
  {
    assert z + a + b + c + d + e + f == z + a + b + c + (d + (e + f));
    assert z + a + b + c + (d + (e + f)) == z + (a + (b + (c + (d + (e + f)))));
  }
}
