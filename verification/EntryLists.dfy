/**
 Count-prefixed lists of length-prefixed opaque entries: the framing shared by
 delegation carriages (onomancy_core/src/delegation_chain.rs) and DNSSEC chains
 (onomancy_dnssec/src/chain.rs).
 */
module EntryLists {
  import opened Wrappers
  import opened Wire

  function WriteEntries(c: Varint, entries: seq<Bytes>): Bytes {
    if entries == [] then []
    else c.encode(|entries[0]|) + (entries[0] + WriteEntries(c, entries[1..]))
  }

  function WriteList(c: Varint, entries: seq<Bytes>): Bytes {
    c.encode(|entries|) + WriteEntries(c, entries)
  }

  /** One length-prefixed entry. */
  function ReadEntry(c: Varint, b: Bytes): (r: Read<Bytes>)
    ensures r.Ok? ==> |r.value.1| <= |b|
  {
    var (len, rest) :- ReadLength(c, b, 1);
    ReadBytes(rest, len)
  }

  function ReadEntries(c: Varint, b: Bytes, count: nat): (r: Read<seq<Bytes>>)
    ensures r.Ok? ==> |r.value.0| == count
  {
    if count == 0 then Ok(([], b))
    else
      var (entry, rest) :- ReadEntry(c, b);
      var (entries, after) :- ReadEntries(c, rest, count - 1);
      Ok(([entry] + entries, after))
  }

  function ReadList(c: Varint, b: Bytes): Read<seq<Bytes>> {
    var (count, rest) :- ReadLength(c, b, 1);
    ReadEntries(c, rest, count)
  }

  /** A standalone list: within the cap and nothing after it. */
  function ReadFramed(c: Varint, b: Bytes): Result<seq<Bytes>, WireError> {
    if |b| > MAX_UNIT_BYTES then Err(OversizeUnit(|b|))
    else
      var (entries, rest) :- ReadList(c, b);
      if rest == [] then Ok(entries) else Err(TrailingBytes(|rest|))
  }

  /** Lengths a machine word can hold. */
  ghost predicate Countable(entries: seq<Bytes>) {
    |entries| < U64_LIMIT && forall e | e in entries :: |e| < U64_LIMIT
  }

  lemma EntryPrefix(c: Varint, entry: Bytes, tail: Bytes)
    requires |entry| < U64_LIMIT
    ensures ReadEntry(c, c.encode(|entry|) + (entry + tail)) == Ok((entry, tail))
  {
    LengthPrefix(c, |entry|, entry + tail, 1);
    assert (entry + tail)[..|entry|] == entry && (entry + tail)[|entry|..] == tail;
  }

  lemma EntryCanonical(c: Varint, b: Bytes)
    requires ReadEntry(c, b).Ok?
    ensures var (entry, rest) := ReadEntry(c, b).value;
            |entry| < U64_LIMIT && b == c.encode(|entry|) + (entry + rest)
  {
    var (len, rest) := ReadLength(c, b, 1).value;
    assert rest == rest[..len] + rest[len..];
  }

  lemma WriteEntriesCons(c: Varint, entries: seq<Bytes>, tail: Bytes)
    requires entries != []
    ensures WriteEntries(c, entries) + tail
            == c.encode(|entries[0]|) + (entries[0] + (WriteEntries(c, entries[1..]) + tail))
  {
  }

  lemma NoEntries(c: Varint)
    ensures WriteEntries(c, []) == []
  {
  }

  lemma {:induction false} EntriesPrefix(c: Varint, entries: seq<Bytes>, tail: Bytes)
    requires Countable(entries)
    ensures ReadEntries(c, WriteEntries(c, entries) + tail, |entries|) == Ok((entries, tail))
    ensures |entries| <= |WriteEntries(c, entries)|
  {
    hide ReadEntry;
    if entries == [] {
      assert [] + tail == tail;
    } else {
      WriteEntriesCons(c, entries, tail);
      EntryPrefix(c, entries[0], WriteEntries(c, entries[1..]) + tail);
      EntriesPrefix(c, entries[1..], tail);
      VarintPrefix(c, |entries[0]|, []);
      assert entries == [entries[0]] + entries[1..];
    }
  }

  lemma {:induction false} EntriesCanonical(c: Varint, b: Bytes, count: nat)
    requires ReadEntries(c, b, count).Ok?
    ensures var (entries, rest) := ReadEntries(c, b, count).value;
            (forall e | e in entries :: |e| < U64_LIMIT) && b == WriteEntries(c, entries) + rest
    decreases count
  {
    hide ReadEntry;
    if count == 0 {
      assert [] + b == b;
    } else {
      EntryCanonical(c, b);
      var (entry, rest) := ReadEntry(c, b).value;
      EntriesCanonical(c, rest, count - 1);
      var (entries, after) := ReadEntries(c, rest, count - 1).value;
      WriteEntriesCons(c, [entry] + entries, after);
      assert ([entry] + entries)[1..] == entries;
    }
  }

  /** A written list reads back whatever follows it; the count check never refuses it. */
  lemma ListPrefix(c: Varint, entries: seq<Bytes>, tail: Bytes)
    requires Countable(entries)
    ensures ReadList(c, WriteList(c, entries) + tail) == Ok((entries, tail))
    ensures |WriteList(c, entries)| > |entries|
  {
    hide ReadEntries, WriteEntries;
    EntriesPrefix(c, entries, tail);
    assert WriteList(c, entries) + tail == c.encode(|entries|) + (WriteEntries(c, entries) + tail);
    LengthPrefix(c, |entries|, WriteEntries(c, entries) + tail, 1);
  }

  lemma {:induction false} SmallEntriesAreCountable(c: Varint, entries: seq<Bytes>)
    requires |WriteEntries(c, entries)| < U64_LIMIT
    ensures Countable(entries) && |entries| <= |WriteEntries(c, entries)|
  {
    if entries != [] {
      assert |entries[0]| < U64_LIMIT;
      VarintPrefix(c, |entries[0]|, []);
      SmallEntriesAreCountable(c, entries[1..]);
      assert entries == [entries[0]] + entries[1..];
    }
  }

  /** A list whose spelling fits a machine word has machine-word lengths throughout. */
  lemma SmallListIsCountable(c: Varint, entries: seq<Bytes>)
    ensures |WriteList(c, entries)| < U64_LIMIT ==> Countable(entries)
  {
    hide WriteEntries, Countable;
    if |WriteList(c, entries)| < U64_LIMIT {
      SmallEntriesAreCountable(c, entries);
    }
  }

  /** Whatever reads as a list is the one spelling of its entries. */
  lemma ListCanonical(c: Varint, b: Bytes)
    requires ReadList(c, b).Ok?
    ensures var (entries, rest) := ReadList(c, b).value; Countable(entries) && b == WriteList(c, entries) + rest
  {
    hide ReadEntries, WriteEntries;
    var (count, rest) := ReadLength(c, b, 1).value;
    EntriesCanonical(c, rest, count);
  }

  /** Standalone lists: decoding inverts encoding within the cap, and nothing else decodes. */
  lemma FramedBijection(c: Varint, b: Bytes, entries: seq<Bytes>)
    ensures ReadFramed(c, b) == Ok(entries) <==> b == WriteList(c, entries) && |b| <= MAX_UNIT_BYTES
  {
    hide ReadList, WriteList;
    if ReadFramed(c, b) == Ok(entries) {
      ListCanonical(c, b);
      assert WriteList(c, entries) + [] == WriteList(c, entries);
    }
    if b == WriteList(c, entries) && |b| <= MAX_UNIT_BYTES {
      SmallListIsCountable(c, entries);
      ListPrefix(c, entries, []);
      assert WriteList(c, entries) + [] == WriteList(c, entries);
    }
  }

  // ----- the loops -----

  /** What reading on after `done` yields. */
  ghost function Continue(done: seq<Bytes>, r: Read<seq<Bytes>>): Read<seq<Bytes>> {
    match r
    case Err(e) => Err(e)
    case Ok((more, rest)) => Ok((done + more, rest))
  }

  lemma {:induction false} ReadEntriesStep(c: Varint, b: Bytes, count: nat, done: seq<Bytes>)
    requires count > 0
    ensures Continue(done, ReadEntries(c, b, count))
            == match ReadEntry(c, b)
               case Err(e) => Err(e)
               case Ok((entry, rest)) => Continue(done + [entry], ReadEntries(c, rest, count - 1))
  {
    hide ReadEntry;
    if ReadEntry(c, b).Ok? {
      var (entry, rest) := ReadEntry(c, b).value;
      if ReadEntries(c, rest, count - 1).Ok? {
        var more := ReadEntries(c, rest, count - 1).value.0;
        assert done + ([entry] + more) == done + [entry] + more;
      }
    }
  }

  lemma ReadEntriesNone(c: Varint, b: Bytes, done: seq<Bytes>)
    ensures Continue(done, ReadEntries(c, b, 0)) == Ok((done, b))
  {
    assert done + [] == done;
  }

  lemma ContinueNone(r: Read<seq<Bytes>>)
    ensures Continue([], r) == r
  {
    if r.Ok? {
      assert [] + r.value.0 == r.value.0;
    }
  }

  lemma {:induction false} WriteEntriesSnoc(c: Varint, entries: seq<Bytes>, entry: Bytes)
    ensures WriteEntries(c, entries + [entry]) == WriteEntries(c, entries) + (c.encode(|entry|) + entry)
  {
    var last := c.encode(|entry|) + entry;
    if entries == [] {
      assert entries + [entry] == [entry] && [entry][1..] == [];
      assert entry + [] == entry;
      assert [] + last == last;
    } else {
      assert (entries + [entry])[1..] == entries[1..] + [entry];
      WriteEntriesSnoc(c, entries[1..], entry);
      var more := WriteEntries(c, entries[1..]);
      Assoc(entries[0], more, last);
      Assoc(c.encode(|entries[0]|), entries[0] + more, last);
    }
  }

  method TakeEntry(reader: Reader, c: Varint) returns (r: Result<Bytes, WireError>)
    requires reader.Valid()
    modifies reader`pos
    ensures reader.Valid()
    ensures Agrees(ReadEntry(c, old(reader.Rest())), r, reader.Rest())
  {
    var len :- reader.BoundedLen(c, 1);
    r := reader.Take(len);
  }

  method DecodeList(reader: Reader, c: Varint) returns (r: Result<seq<Bytes>, WireError>)
    requires reader.Valid()
    modifies reader`pos
    ensures reader.Valid()
    ensures Agrees(ReadList(c, old(reader.Rest())), r, reader.Rest())
  {
    hide ReadEntry, ReadEntries, Continue;
    var count :- reader.BoundedLen(c, 1);
    var entries: seq<Bytes> := [];
    ghost var all := ReadEntries(c, reader.Rest(), count);
    ContinueNone(all);
    for i := 0 to count
      invariant reader.Valid()
      invariant Continue(entries, ReadEntries(c, reader.Rest(), count - i)) == all
    {
      ReadEntriesStep(c, reader.Rest(), count - i, entries);
      var entry :- TakeEntry(reader, c);
      entries := entries + [entry];
    }
    ReadEntriesNone(c, reader.Rest(), entries);
    return Ok(entries);
  }

  method DecodeFramed(b: Bytes, c: Varint) returns (r: Result<seq<Bytes>, WireError>)
    ensures r == ReadFramed(c, b)
  {
    var reader :- Reader.New(b);
    var entries :- DecodeList(reader, c);
    var _ :- reader.Finish();
    return Ok(entries);
  }

  method EncodeList(buf: Buffer, c: Varint, entries: seq<Bytes>)
    modifies buf
    ensures buf.bytes == old(buf.bytes) + WriteList(c, entries)
  {
    hide WriteEntries;
    buf.PutVarint(c, |entries|);
    ghost var start := buf.bytes;
    NoEntries(c);
    assert start + [] == start;
    for i := 0 to |entries|
      invariant buf.bytes == start + WriteEntries(c, entries[..i])
    {
      WriteEntriesSnoc(c, entries[..i], entries[i]);
      assert entries[..i] + [entries[i]] == entries[..i + 1];
      ghost var before := WriteEntries(c, entries[..i]);
      Assoc(start, before, c.encode(|entries[i]|));
      Assoc(start, before + c.encode(|entries[i]|), entries[i]);
      Assoc(before, c.encode(|entries[i]|), entries[i]);
      buf.PutVarint(c, |entries[i]|);
      buf.Extend(entries[i]);
    }
    assert entries[..|entries|] == entries;
    Assoc(old(buf.bytes), c.encode(|entries|), WriteEntries(c, entries));
  }
}
