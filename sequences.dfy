/** Facts about sequences shared by the recursive list builders. */
module Sequences {

  /**
   * Concatenation regroups: a list built as `m + (x + y)` is the list built
   * as `m + x`, followed by `y`. Stated on names for the whole and the front so
   * that a caller can use it without unfolding either.
   */
  lemma Rebracket<T>(whole: seq<T>, front: seq<T>, m: seq<T>, x: seq<T>, y: seq<T>)
    requires whole == m + (x + y) && front == m + x
    ensures whole == front + y
  {
  }
}
