/** What several of the models say of a list. */
module Sequences {

  /** No element occurs twice. */
  predicate Distinct(s: seq<int>) {
    forall i, j :: 0 <= i < j < |s| ==> s[i] != s[j]
  }
}
