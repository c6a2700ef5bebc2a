/** The string tests the length heuristic and the async rule rely on. */
module Strings {
  import opened Wrappers

  /** `s.ends_with(suffix)`. */
  predicate EndsWith(s: string, suffix: string)
  {
    |suffix| <= |s| && s[|s| - |suffix|..] == suffix
  }

  /** `sub` occurs in `s` starting at position `k`. */
  predicate OccursAt(s: string, sub: string, k: int)
  {
    0 <= k && k + |sub| <= |s| && s[k..k + |sub|] == sub
  }

  /** One mismatching character rules out an occurrence. */
  lemma MismatchAt(s: string, sub: string, k: nat, d: nat)
    requires d < |sub| && k + d < |s| && s[k + d] != sub[d]
    ensures !OccursAt(s, sub, k)
  {
    if k + |sub| <= |s| {
      assert s[k..k + |sub|][d] == s[k + d];
    }
  }

  /** `s[from..].find(sub)`, reported as a position of `s`. */
  function FindFrom(s: string, sub: string, from: nat): (r: Option<nat>)
    requires from <= |s|
    decreases |s| - from
    ensures r.Some? ==> from <= r.value && OccursAt(s, sub, r.value)
    ensures r.Some? ==> forall k :: from <= k < r.value ==> !OccursAt(s, sub, k)
    ensures r.None? ==> forall k :: from <= k ==> !OccursAt(s, sub, k)
  {
    if from + |sub| > |s| then None
    else if s[from..from + |sub|] == sub then Some(from)
    else FindFrom(s, sub, from + 1)
  }

  /** `s.find(sub)`: the first position at which `sub` occurs. */
  function Find(s: string, sub: string): (r: Option<nat>)
    ensures r.Some? <==> exists k :: OccursAt(s, sub, k)
    ensures r.Some? ==> OccursAt(s, sub, r.value)
    ensures r.Some? ==> forall k :: 0 <= k < r.value ==> !OccursAt(s, sub, k)
  {
    FindFrom(s, sub, 0)
  }
}
