/** Where a pattern occurs in a text. */
module Substrings {
  import opened Text

  predicate At(source: string, i: nat, pattern: string) {
    i + |pattern| <= |source| && source[i..i + |pattern|] == pattern
  }

  /** `source.find(pattern, from)` */
  function Find(source: string, pattern: string, from: nat): (r: Option<nat>)
    ensures r.Some? ==> from <= r.value && At(source, r.value, pattern) && forall i :: from <= i < r.value ==>
      !At(source, i, pattern)
    ensures r.None? ==> forall i :: from <= i ==> !At(source, i, pattern)
    decreases |source| - from
  {
    if from + |pattern| > |source| then None
    else if At(source, from, pattern) then Some(from)
    else Find(source, pattern, from + 1)
  }
}
