/** Validity windows and their standing at a clock reading (onomancy_dnssec/src/freshness.rs). */
module Freshness {
  import opened Wrappers

  datatype Window = Window(inception: nat, expiration: nat)

  datatype Grade = Fresh | NotYetBegun | Stale

  /** An empty window is unrepresentable. */
  function NewWindow(inception: nat, expiration: nat): Option<Window> {
    if expiration < inception then None else Some(Window(inception, expiration))
  }

  function GradeAt(w: Window, now: nat): Grade {
    if now < w.inception then NotYetBegun
    else if now <= w.expiration then Fresh
    else Stale
  }

  predicate Covers(w: Window, now: nat) {
    w.inception <= now <= w.expiration
  }
}
