/** Document anchors as text (onomancy_core/src/anchor/doc.rs): a scheme and a checked spelling of a key. */
module Anchors {
  import opened Wrappers
  import opened Wire

  type Doc = Bytes

  const SCHEME_PREFIX: string := "automerge:"

  /** The bs58check spelling seen from outside: which keys are documents, how they print, what parses. */
  datatype AnchorParts = AnchorParts(valid: Doc -> bool, show: Doc -> string, parse: string -> Option<Doc>)

  ghost predicate LawfulAnchors(a: AnchorParts) {
    && (forall d: Doc | a.valid(d) :: a.parse(a.show(d)) == Some(d))
    && (forall s: string | a.parse(s).Some? :: a.valid(a.parse(s).value))
  }

  type AnchorCodec = a: AnchorParts | LawfulAnchors(a) ghost witness SomeAnchors()

  /** A codec that meets the contract, so that the contract is not empty: each octet as one character. */
  ghost function SomeAnchors(): (a: AnchorParts)
    ensures LawfulAnchors(a)
  {
    var a := AnchorParts((d: Doc) => true, Spelled, Unspelled);
    assert forall d: Doc :: Unspelled(Spelled(d)).Some? && Unspelled(Spelled(d)).value == d;
    a
  }

  function Spelled(d: Doc): (s: string)
    ensures |s| == |d| && forall i | 0 <= i < |d| :: s[i] as int == d[i] as int
  {
    seq(|d|, i requires 0 <= i < |d| => d[i] as char)
  }

  function Unspelled(s: string): (d: Option<Doc>)
    ensures d.Some? <==> forall i | 0 <= i < |s| :: (s[i] as int) < 256
    ensures d.Some? ==> |d.value| == |s| && forall i | 0 <= i < |s| :: d.value[i] as int == s[i] as int
  {
    if forall i | 0 <= i < |s| :: (s[i] as int) < 256
    then Some(seq(|s|, i requires 0 <= i < |s| => s[i] as byte))
    else None
  }
}
