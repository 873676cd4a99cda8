/** Option and Result: the model's stand-ins for Python's `None` and for a raised exception. */
module Wrappers {

  /** A value that may be absent (`None` in Python, `NULL` in SQLite). */
  datatype Option<T> = None | Some(value: T) {

    /** The wrapped value, or `default` when absent (`d.get(k, default)`). */
    function GetOr(default: T): T {
      match this
      case Some(v) => v
      case None => default
    }
  }

  /** The outcome of an operation that can raise: a value, or the error that aborted it. */
  datatype Result<T, E> = Ok(value: T) | Err(error: E)

  /** The values present in `os`, in order: a loop that `continue`s past the absent ones. */
  function Present<T>(os: seq<Option<T>>): (r: seq<T>)
    ensures |r| <= |os|
    ensures forall i :: 0 <= i < |r| ==> exists j :: 0 <= j < |os| && os[j] == Some(r[i])
    ensures forall j :: 0 <= j < |os| && os[j].Some? ==> os[j].value in r
    decreases |os|
  {
    if |os| == 0 then []
    else
      var rest := Present(os[1..]);
      assert forall j :: 1 <= j < |os| ==> os[j] == os[1..][j - 1];
      match os[0]
      case None => rest
      case Some(c) => [c] + rest
  }

  /** `[f(x) for x in xs]` where `f` can raise: the results in order when no item raises, and
      otherwise the error of the first item that does. */
  function MapAll<T, U, E>(xs: seq<T>, f: T -> Result<U, E>): (r: Result<seq<U>, E>)
    ensures r.Ok? <==> forall i :: 0 <= i < |xs| ==> f(xs[i]).Ok?
    ensures r.Ok? ==> |r.value| == |xs| && forall i :: 0 <= i < |xs| ==> r.value[i] == f(xs[i]).value
    ensures r.Err? ==> exists i :: 0 <= i < |xs| && f(xs[i]) == Err(r.error) && forall j :: 0 <= j < i ==> f(xs[j]).Ok?
    decreases |xs|
  {
    if |xs| == 0 then Ok([])
    else
      var n := |xs| - 1;
      assert forall i :: 0 <= i < n ==> xs[..n][i] == xs[i];
      match MapAll(xs[..n], f)
      case Err(e) => Err(e)
      case Ok(prefix) =>
        match f(xs[n])
        case Err(e) => Err(e)
        case Ok(u) => Ok(prefix + [u])
  }

  /** Nothing is present when every entry is absent. */
  lemma {:induction false} PresentAllAbsent<T>(os: seq<Option<T>>)
    requires forall j :: 0 <= j < |os| ==> os[j].None?
    ensures Present(os) == []
    decreases |os|
  {
    if |os| > 0 {
      PresentAllAbsent(os[1..]);
    }
  }
}
