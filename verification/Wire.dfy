/**
 The shared wire machinery (onomancy_core/src/wire.rs): a strict cursor over one
 unit, canonical variable-length integers, lengths validated before use, and the
 unit size cap.

 Each cursor operation exists twice: as a function from the bytes not yet consumed
 to a value and the bytes after it, and as a method of the mutable `Reader` proved
 to agree with that function.
 */
module Wire {
  import opened Wrappers

  newtype byte = x: int | 0 <= x < 256

  type Bytes = seq<byte>

  lemma Assoc(a: Bytes, b: Bytes, c: Bytes)
    ensures a + b + c == a + (b + c)
  {
  }

  function Joined(parts: seq<Bytes>): Bytes {
    if parts == [] then [] else parts[0] + Joined(parts[1..])
  }

  const MAX_UNIT_BYTES: nat := 0x10_0000
  const U64_LIMIT: nat := 0x1_0000_0000_0000_0000

  datatype WireError =
    | LengthOverrun(declared: nat, have: nat)
    | OversizeUnit(len: nat)
    | TrailingBytes(extra: nat)
    | Truncated(need: nat, have: nat)
    | Varint

  // ----- variable-length integers -----

  /** The varint crate seen from outside: what it writes and what it reads. */
  datatype VarintCodec = VarintCodec(encode: nat -> Bytes, decode: Bytes -> Option<(nat, nat)>)

  ghost predicate RoundTrips(c: VarintCodec) {
    forall v: nat, tail: Bytes | v < U64_LIMIT ::
      c.decode(c.encode(v) + tail) == Some((v, |c.encode(v)|))
  }

  ghost predicate Canonical(c: VarintCodec) {
    forall b: Bytes | c.decode(b).Some? ::
      var (v, n) := c.decode(b).value;
      v < U64_LIMIT && n <= |b| && b[..n] == c.encode(v)
  }

  ghost predicate NeverEmpty(c: VarintCodec) {
    forall v: nat | v < U64_LIMIT :: c.encode(v) != []
  }

  /** All the codecs rely on: a prefix-free bijection between u64 and its spellings, none empty. */
  ghost predicate LawfulVarint(c: VarintCodec) {
    RoundTrips(c) && Canonical(c) && NeverEmpty(c)
  }

  type Varint = c: VarintCodec | LawfulVarint(c) ghost witness FixedWidth()

  /** A codec that meets the contract, so that the contract is not empty: eight big-endian bytes. */
  ghost function FixedWidth(): (c: VarintCodec)
    ensures LawfulVarint(c)
  {
    var encode := (v: nat) => BigEndian(8, v);
    var decode := (b: Bytes) => if |b| < 8 then None else Some((FromBigEndian(b[..8]), 8));
    var c := VarintCodec(encode, decode);
    assert RoundTrips(c) by {
      forall v: nat, tail: Bytes | v < U64_LIMIT
        ensures c.decode(c.encode(v) + tail) == Some((v, |c.encode(v)|))
      {
        BigEndianValue(8, v);
        assert (BigEndian(8, v) + tail)[..8] == BigEndian(8, v);
      }
    }
    assert Canonical(c) by {
      forall b: Bytes | c.decode(b).Some?
        ensures var (v, n) := c.decode(b).value; v < U64_LIMIT && n <= |b| && b[..n] == c.encode(v)
      {
        BigEndianSpelling(b[..8]);
      }
    }
    c
  }

  ghost function Power256(n: nat): nat {
    if n == 0 then 1 else 256 * Power256(n - 1)
  }

  /** The low `width` bytes of `v`, most significant first. */
  function BigEndian(width: nat, v: nat): (b: Bytes)
    ensures |b| == width
  {
    if width == 0 then [] else BigEndian(width - 1, v / 256) + [(v % 256) as byte]
  }

  function FromBigEndian(b: Bytes): nat {
    if b == [] then 0 else FromBigEndian(b[..|b| - 1]) * 256 + b[|b| - 1] as nat
  }

  lemma {:induction false} BigEndianValue(width: nat, v: nat)
    requires v < Power256(width)
    ensures FromBigEndian(BigEndian(width, v)) == v
  {
    if width > 0 {
      var b := BigEndian(width, v);
      assert b[..|b| - 1] == BigEndian(width - 1, v / 256);
      assert v / 256 < Power256(width - 1);
      BigEndianValue(width - 1, v / 256);
    }
  }

  lemma {:induction false} BigEndianSpelling(b: Bytes)
    ensures FromBigEndian(b) < Power256(|b|)
    ensures BigEndian(|b|, FromBigEndian(b)) == b
  {
    if b != [] {
      BigEndianSpelling(b[..|b| - 1]);
      var high, low := FromBigEndian(b[..|b| - 1]), b[|b| - 1] as nat;
      assert (high * 256 + low) / 256 == high && (high * 256 + low) % 256 == low;
    }
  }

  // ----- reading, as functions of the bytes not yet consumed -----

  type Read<+T> = Result<(T, Bytes), WireError>

  function ReadBytes(b: Bytes, need: nat): Read<Bytes> {
    if need > |b| then Err(Truncated(need, |b|)) else Ok((b[..need], b[need..]))
  }

  function ReadVarint(c: Varint, b: Bytes): (r: Read<nat>)
    ensures r.Ok? ==> r.value.0 < U64_LIMIT && b == c.encode(r.value.0) + r.value.1
  {
    match c.decode(b)
    case None => Err(WireError.Varint)
    case Some((v, n)) =>
      assert b == b[..n] + b[n..];
      Ok((v, b[n..]))
  }

  /** A length or count, refused unless the rest of the input can back it at `width` bytes each. */
  function ReadLength(c: Varint, b: Bytes, width: nat): (r: Read<nat>)
    ensures r.Ok? ==> r.value.0 < U64_LIMIT && r.value.0 * width <= |r.value.1|
    ensures r.Ok? ==> b == c.encode(r.value.0) + r.value.1
  {
    var (declared, rest) :- ReadVarint(c, b);
    if declared * width <= |rest| then Ok((declared, rest))
    else Err(LengthOverrun(declared, |rest|))
  }

  lemma VarintPrefix(c: Varint, v: nat, tail: Bytes)
    requires v < U64_LIMIT
    ensures c.encode(v) != []
    ensures ReadVarint(c, c.encode(v) + tail) == Ok((v, tail))
  {
    assert (c.encode(v) + tail)[|c.encode(v)|..] == tail;
  }

  lemma {:induction false} LengthPrefix(c: Varint, v: nat, tail: Bytes, width: nat)
    requires v < U64_LIMIT && v * width <= |tail|
    ensures c.encode(v) != []
    ensures ReadLength(c, c.encode(v) + tail, width) == Ok((v, tail))
  {
    VarintPrefix(c, v, tail);
  }

  /** The bound admits a count exactly when the input backs it: no allocation precedes the check. */
  lemma BoundedLengthIsExact(c: Varint, b: Bytes, width: nat)
    ensures ReadLength(c, b, width).Ok? <==>
            exists v: nat, rest: Bytes :: v < U64_LIMIT && b == c.encode(v) + rest && v * width <= |rest|
  {
    if r :| r == ReadLength(c, b, width) && r.Ok? {
      assert r.value.0 < U64_LIMIT && b == c.encode(r.value.0) + r.value.1;
    }
    if v: nat, rest: Bytes :| v < U64_LIMIT && b == c.encode(v) + rest && v * width <= |rest| {
      LengthPrefix(c, v, rest, width);
    }
  }

  // ----- the cursor -----

  /** A read method agrees with its function: same value and remaining bytes, or same error. */
  ghost predicate Agrees<T, E>(spec: Result<(T, Bytes), E>, r: Result<T, E>, rest: Bytes) {
    match spec
    case Ok((value, after)) => r == Ok(value) && rest == after
    case Err(e) => r == Err(e)
  }

  class Reader {
    const bytes: Bytes
    var pos: nat

    ghost predicate Valid()
      reads this
    {
      pos <= |bytes| <= MAX_UNIT_BYTES
    }

    ghost function Rest(): Bytes
      requires Valid()
      reads this
    {
      bytes[pos..]
    }

    constructor (bytes: Bytes)
      requires |bytes| <= MAX_UNIT_BYTES
      ensures Valid() && this.bytes == bytes && Rest() == bytes
    {
      this.bytes := bytes;
      pos := 0;
    }

    /** Begin reading a unit, enforcing the cap. */
    static method New(bytes: Bytes) returns (r: Result<Reader, WireError>)
      ensures |bytes| > 1024 * 1024 ==> r == Err(OversizeUnit(|bytes|))
      ensures |bytes| <= 1024 * 1024 ==>
                r.Ok? && fresh(r.value) && r.value.Valid() && r.value.bytes == bytes && r.value.Rest() == bytes
    {
      if |bytes| > MAX_UNIT_BYTES {
        return Err(OversizeUnit(|bytes|));
      }
      var reader := new Reader(bytes);
      return Ok(reader);
    }

    method Remaining() returns (n: nat)
      requires Valid()
      ensures n == |Rest()|
    {
      n := |bytes| - pos;
    }

    method Take(need: nat) returns (r: Result<Bytes, WireError>)
      requires Valid()
      modifies this`pos
      ensures Valid()
      ensures Agrees(ReadBytes(old(Rest()), need), r, Rest())
      ensures r.Err? ==> pos == old(pos)
    {
      var have := |bytes| - pos;
      if need > have {
        return Err(Truncated(need, have));
      }
      var taken := bytes[pos..pos + need];
      assert taken == Rest()[..need] && bytes[pos + need..] == Rest()[need..];
      pos := pos + need;
      return Ok(taken);
    }

    method TakeVarint(c: Varint) returns (r: Result<nat, WireError>)
      requires Valid()
      modifies this`pos
      ensures Valid()
      ensures Agrees(ReadVarint(c, old(Rest())), r, Rest())
    {
      match c.decode(bytes[pos..]) {
        case None => return Err(WireError.Varint);
        case Some((value, consumed)) =>
          pos := pos + consumed;
          return Ok(value);
      }
    }

    method BoundedLen(c: Varint, width: nat) returns (r: Result<nat, WireError>)
      requires Valid()
      modifies this`pos
      ensures Valid()
      ensures Agrees(ReadLength(c, old(Rest()), width), r, Rest())
      ensures r.Ok? ==> r.value * width <= |Rest()|
    {
      var declared :- TakeVarint(c);
      var have := Remaining();
      if declared * width <= have {
        return Ok(declared);
      }
      return Err(LengthOverrun(declared, have));
    }

    method Finish() returns (r: Result<(), WireError>)
      requires Valid()
      ensures r == if Rest() == [] then Ok(()) else Err(TrailingBytes(|Rest()|))
    {
      var extra := Remaining();
      if extra == 0 {
        return Ok(());
      }
      return Err(TrailingBytes(extra));
    }
  }

  /** A unit under construction: encoders only ever append to it. */
  class Buffer {
    var bytes: Bytes

    constructor ()
      ensures bytes == []
    {
      bytes := [];
    }

    method Extend(more: Bytes)
      modifies this
      ensures bytes == old(bytes) + more
    {
      bytes := bytes + more;
    }

    method PutVarint(c: Varint, v: nat)
      modifies this
      ensures bytes == old(bytes) + c.encode(v)
    {
      bytes := bytes + c.encode(v);
    }
  }
}
