/** Facts about sequences shared by the catalog's listing and the playlists. */
module Sequences {
  /** No element occurs twice in the sequence. */
  predicate NoDuplicates<T(==)>(s: seq<T>)
  {
    forall i, j :: 0 <= i < j < |s| ==> s[i] != s[j]
  }
}
