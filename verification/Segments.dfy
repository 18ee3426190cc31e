/** Path segments (onomancy_core/src/name/segment.rs). */
module Segments {
  import opened Wrappers

  datatype SegmentError = ControlCharacter | DotSegment | EmbeddedSlash | EmptySegment | ReservedHash

  /** General category Cc: the C0 and C1 controls and delete. */
  predicate IsControl(c: char) {
    (c as int) < 0x20 || 0x7f <= c as int <= 0x9f
  }

  function ParseSegment(raw: string): Result<string, SegmentError> {
    if raw == "" then Err(EmptySegment)
    else if raw == "." || raw == ".." then Err(DotSegment)
    else if '/' in raw then Err(EmbeddedSlash)
    else if '#' in raw then Err(ReservedHash)
    else if exists c :: c in raw && IsControl(c) then Err(ControlCharacter)
    else Ok(raw)
  }

  /** Which strings are segments, and which fault is reported of one that is none. */
  lemma SegmentExactly(raw: string)
    ensures ParseSegment(raw).Ok? <==>
            && raw != "" && raw != "." && raw != ".." && '/' !in raw && '#' !in raw
            && forall i | 0 <= i < |raw| :: ' ' <= raw[i] && !('\U{7F}' <= raw[i] <= '\U{9F}')
    ensures ParseSegment(raw).Ok? ==> ParseSegment(raw).value == raw
    ensures ParseSegment(raw) == Err(EmptySegment) <==> raw == ""
    ensures ParseSegment(raw) == Err(DotSegment) <==> raw == "." || raw == ".."
    ensures ParseSegment(raw) == Err(EmbeddedSlash) <==> '/' in raw
    ensures ParseSegment(raw) == Err(ReservedHash) <==> '/' !in raw && '#' in raw
    ensures ParseSegment(raw) == Err(ControlCharacter) <==>
            && '/' !in raw && '#' !in raw
            && exists i :: 0 <= i < |raw| && (raw[i] < ' ' || '\U{7F}' <= raw[i] <= '\U{9F}')
  {
    assert forall c: char :: IsControl(c) <==> c < ' ' || '\U{7F}' <= c <= '\U{9F}';
    assert '/' !in "" && '/' !in "." && '/' !in "..";
    assert '#' !in "" && '#' !in "." && '#' !in "..";
    if exists i :: 0 <= i < |raw| && IsControl(raw[i]) {
      var i :| 0 <= i < |raw| && IsControl(raw[i]);
      assert raw[i] in raw;
      assert raw != "." && raw != "..";
    }
  }

  predicate ValidSegment(raw: string) {
    ParseSegment(raw).Ok?
  }

  type Segment = s: string | ValidSegment(s) witness Example()

  type Path = seq<Segment>

  function Example(): (s: string)
    ensures ValidSegment(s)
  {
    "a"
  }
}
