/** The DNSKEY key tag (onomancy_dnssec/src/wire/dnskey.rs, Appendix B of RFC 4034). */
module KeyTags {
  import opened Wire

  newtype u32 = x: int | 0 <= x < 0x1_0000_0000
  newtype u16 = x: int | 0 <= x < 0x1_0000

  const MAX_RDATA: nat := 65535

  /** The RDATA as big-endian 16-bit words, a last odd octet in the high half, summed. */
  function PairSum(rdata: Bytes): (sum: nat)
    ensures sum <= |rdata| * 65280
  {
    if rdata == [] then 0
    else if |rdata| == 1 then rdata[0] as nat * 256
    else rdata[0] as nat * 256 + rdata[1] as nat + PairSum(rdata[2..])
  }

  /** Appendix B of RFC 4034: the word sum with one carry fold, cut to 16 bits. */
  function KeyTag(rdata: Bytes): nat {
    var sum := PairSum(rdata);
    (sum + sum / 0x1_0000 % 0x1_0000) % 0x1_0000
  }

  /** One octet more adds it in the half its position selects. */
  lemma {:induction false} PairSumStep(rdata: Bytes, b: byte)
    ensures PairSum(rdata + [b]) == PairSum(rdata) + (if |rdata| % 2 == 0 then b as nat * 256 else b as nat)
  {
    if |rdata| >= 2 {
      assert (rdata + [b])[2..] == rdata[2..] + [b];
      PairSumStep(rdata[2..], b);
    }
  }

  /** Pairs of octets bound the sum twice as tightly as octets alone. */
  lemma {:induction false} PairSumBound(rdata: Bytes)
    ensures PairSum(rdata) <= (|rdata| + 1) / 2 * 65535
  {
    if |rdata| >= 2 {
      PairSumBound(rdata[2..]);
    }
  }

  /**
   The loop over octets. Every sum is taken in `u32`, so verification also shows that the
   accumulator never overflows on any RDATA a 16-bit RDLENGTH can frame.
   */
  method ComputeKeyTag(rdata: Bytes) returns (tag: u16)
    requires |rdata| <= MAX_RDATA
    ensures tag as nat == KeyTag(rdata)
  {
    var accumulator: u32 := 0;
    for index := 0 to |rdata|
      invariant accumulator as nat == PairSum(rdata[..index])
    {
      PairSumStep(rdata[..index], rdata[index]);
      assert rdata[..index] + [rdata[index]] == rdata[..index + 1];
      PairSumBound(rdata[..index + 1]);
      accumulator := accumulator + (if index % 2 == 0 then rdata[index] as u32 * 256 else rdata[index] as u32);
    }
    assert rdata[..|rdata|] == rdata;
    PairSumBound(rdata);
    accumulator := accumulator + accumulator / 0x1_0000 % 0x1_0000;
    tag := (accumulator % 0x1_0000) as u16;
  }
}
