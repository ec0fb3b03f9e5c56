/** Option, Result and Outcome: the error paths of the catalog builder and of the
    shipment validators are values of these types instead of exceptions. Also the
    first-match search both use. */
module Wrappers {

  datatype Option<+T> = None | Some(value: T)

  datatype Result<+T, +E> = Ok(value: T) | Err(error: E)

  /** The result of an operation that only changes state or only checks. */
  datatype Outcome<+E> = Pass | Fail(error: E)

  /** `xs.find(x => key(x) === k)`, as an index: the first element whose key is `k`. */
  function FirstWith<T>(xs: seq<T>, key: T -> string, k: string): (r: Option<nat>)
    ensures r.None? <==> forall i :: 0 <= i < |xs| ==> key(xs[i]) != k
    ensures r.Some? ==> r.value < |xs| && key(xs[r.value]) == k
    ensures r.Some? ==> forall j :: 0 <= j < r.value ==> key(xs[j]) != k
  {
    if xs == [] then None
    else if key(xs[0]) == k then Some(0)
    else match FirstWith(xs[1..], key, k)
      case None => None
      case Some(i) => Some(i + 1)
  }
}
