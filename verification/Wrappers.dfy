/** Failure-carrying result types shared by every component. */
module Wrappers {

  datatype Option<+T> = None | Some(value: T) {
    predicate IsFailure() {
      None?
    }

    function PropagateFailure<U>(): Option<U>
      requires None?
    {
      None
    }

    function Extract(): T
      requires Some?
    {
      value
    }

    function GetOr(default: T): T {
      if Some? then value else default
    }
  }

  datatype Result<+T, +E> = Ok(value: T) | Err(error: E) {
    predicate IsFailure() {
      Err?
    }

    function PropagateFailure<U>(): Result<U, E>
      requires Err?
    {
      Err(error)
    }

    function Extract(): T
      requires Ok?
    {
      value
    }
  }

  /** All values, or None when one cannot be read. */
  function ReadAll<A, B>(read: A -> Option<B>, xs: seq<A>): (r: Option<seq<B>>)
    ensures r.Some? <==> forall i :: 0 <= i < |xs| ==> read(xs[i]).Some?
    ensures r.Some? ==> |r.value| == |xs| && forall i :: 0 <= i < |xs| ==> read(xs[i]) == Some(r.value[i])
  {
    if xs == [] then Some([])
    else
      var first := read(xs[0]);
      var rest := ReadAll(read, xs[1..]);
      assert forall i :: 0 < i < |xs| ==> xs[i] == xs[1..][i - 1];
      assert first.Some? && rest.None? ==>
        exists i :: 0 <= i < |xs[1..]| && read(xs[1..][i]).None? && xs[i + 1] == xs[1..][i];
      if first.Some? && rest.Some? then Some([first.value] + rest.value) else None
  }
}
