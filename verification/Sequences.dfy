/** Sequences as sets, and in ascending order. */
module Sequences {

  function Elements<T>(s: seq<T>): set<T> { set x | x in s }

  predicate Ascending(s: seq<int>) { forall i, j | 0 <= i < j < |s| :: s[i] < s[j] }

  predicate Distinct<T(==)>(s: seq<T>) { forall i, j | 0 <= i < j < |s| :: s[i] != s[j] }
}
