/** `Array.prototype.find` and `findIndex`: the first element satisfying a test. */
module SeqFind {
  import opened Wrappers

  /** Index of the first element of `s` for which `matches` holds, or None. */
  function FindIndex<T>(s: seq<T>, matches: T -> bool): (r: Option<nat>)
    ensures r.Some? ==> r.value < |s| && matches(s[r.value])
    ensures r.Some? ==> forall j :: 0 <= j < r.value ==> !matches(s[j])
    ensures r.None? <==> forall j :: 0 <= j < |s| ==> !matches(s[j])
  {
    if s == [] then None
    else if matches(s[0]) then Some(0)
    else
      match FindIndex(s[1..], matches)
      case None => None
      case Some(k) => Some(k + 1)
  }
}
