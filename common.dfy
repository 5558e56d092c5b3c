/** Small shared datatypes. */
module Common {
  datatype Option<T> = None | Some(value: T)

  /** Outcome of a lookup that answers "not found" (HTTP 404) when nothing matches. */
  datatype Lookup<T> = Found(value: T) | NotFound

  /** The first `n` elements of `s`, or all of it when it is shorter (a queryset slice `[:n]`). */
  function Take<T>(s: seq<T>, n: nat): (r: seq<T>)
    ensures |r| <= n && |r| <= |s|
    ensures |r| == if |s| <= n then |s| else n
    ensures |s| <= n ==> r == s
    ensures forall i :: 0 <= i < |r| ==> r[i] == s[i]
  {
    if |s| <= n then s else s[..n]
  }
}
