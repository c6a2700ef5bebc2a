/** Optional values and the "first present value" search that the
    parameter analysis uses for configuration lookups. */
module Wrappers {

  datatype Option<+T> = None | Some(value: T)

  /** `j` is the position of the first present value of `s`. */
  ghost predicate IsFirstSome<T>(s: seq<Option<T>>, j: int)
  {
    0 <= j < |s| && s[j].Some? && forall k :: 0 <= k < j ==> s[k].None?
  }

  /** The first present value of `s` at or after `from`, as
      `iter().filter_map(..).next()` computes it. */
  function FirstSomeFrom<T>(s: seq<Option<T>>, from: nat): (r: Option<T>)
    requires from <= |s|
    decreases |s| - from
    ensures r.None? <==> forall j :: from <= j < |s| ==> s[j].None?
    ensures r.Some? ==>
      exists j :: from <= j < |s| && s[j] == r && forall k :: from <= k < j ==> s[k].None?
  {
    if from == |s| then None
    else if s[from].Some? then s[from]
    else FirstSomeFrom(s, from + 1)
  }

  /** The first present value of `s`, if any. */
  function FirstSome<T>(s: seq<Option<T>>): (r: Option<T>)
    ensures r.None? <==> forall j :: 0 <= j < |s| ==> s[j].None?
    ensures forall j :: IsFirstSome(s, j) ==> r == s[j]
  {
    FirstSomeFrom(s, 0)
  }
}
