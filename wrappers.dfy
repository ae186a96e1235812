/** Optional values: the model's stand-in for JavaScript's `null` and `undefined`. */
module Wrappers {

  datatype Option<+T> = None | Some(value: T)

  /** The index of the first element of `s` satisfying `p`, if there is one. */
  function FirstIndex<T>(s: seq<T>, p: T -> bool): (r: Option<nat>)
    ensures r.Some? ==> r.value < |s| && p(s[r.value])
    ensures r.Some? ==> forall j :: 0 <= j < r.value ==> !p(s[j])
    ensures r.None? ==> forall j :: 0 <= j < |s| ==> !p(s[j])
  {
    if s == [] then None
    else if p(s[0]) then Some(0)
    else match FirstIndex(s[1..], p)
      case None => None
      case Some(i) => Some(i + 1)
  }

  /** Any index that satisfies `p` and has no earlier such index is the one FirstIndex reports. */
  lemma FirstIndexUnique<T>(s: seq<T>, p: T -> bool, k: nat)
    requires k < |s| && p(s[k])
    requires forall j :: 0 <= j < k ==> !p(s[j])
    ensures FirstIndex(s, p) == Some(k)
  {
  }
}
