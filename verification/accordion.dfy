/** A single-open accordion, as used by the current-affairs and the
    general-knowledge lists: at most one entry is expanded; clicking the
    expanded entry collapses it, clicking another expands that one instead. */
module Accordion {
  import opened Types

  datatype AccordionState = AccordionState(openIndex: Option<nat>)

  /** Entry `j` is expanded (the `isOpen` flag passed to entry `j`). */
  predicate IsOpen(a: AccordionState, j: nat) {
    a.openIndex == Some(j)
  }

  /** The entries among the first `n` that are expanded. */
  function OpenEntries(a: AccordionState, n: nat): set<nat> {
    set j: nat | j < n && IsOpen(a, j)
  }

  /** On mount the first entry is expanded and nothing else. */
  function Initial(): (a: AccordionState)
    ensures IsOpen(a, 0)
    ensures forall j: nat :: IsOpen(a, j) ==> j == 0
  {
    AccordionState(Some(0))
  }

  /** `handleToggle(i)`. */
  function Toggle(a: AccordionState, i: nat): (r: AccordionState)
    ensures IsOpen(a, i) ==> forall j: nat :: !IsOpen(r, j)
    ensures !IsOpen(a, i) ==> IsOpen(r, i) && forall j: nat :: IsOpen(r, j) ==> j == i
  {
    AccordionState(if a.openIndex == Some(i) then None else Some(i))
  }

  /** At most one entry is expanded, whatever the state. */
  lemma AtMostOneOpen(a: AccordionState, n: nat)
    ensures |OpenEntries(a, n)| <= 1
    ensures OpenEntries(a, n) == {} <==> !(a.openIndex.Some? && a.openIndex.value < n)
  {
    if a.openIndex.Some? && a.openIndex.value < n {
      assert OpenEntries(a, n) == {a.openIndex.value};
    } else {
      assert OpenEntries(a, n) == {};
    }
  }

  /** Toggling the same entry twice restores the state when that entry was
      expanded or nothing was; if another entry was expanded, the result has
      nothing expanded. */
  lemma ToggleTwice(a: AccordionState, i: nat)
    ensures a.openIndex == None || IsOpen(a, i) ==> Toggle(Toggle(a, i), i) == a
    ensures a.openIndex.Some? && !IsOpen(a, i) ==> Toggle(Toggle(a, i), i).openIndex == None
  {
  }

  /** A toggle of entry `i` changes the expanded status only of `i` and of
      the entry that was expanded before. */
  lemma ToggleIsLocal(a: AccordionState, i: nat, j: nat)
    requires IsOpen(Toggle(a, i), j) != IsOpen(a, j)
    ensures j == i || IsOpen(a, j)
  {
  }
}
