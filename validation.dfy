/** `validateSteps`: the loop that calls each step's `onValidate` over a
    range and accumulates the result with JavaScript's `&&`. */
module Validation {
  import opened Steps

  /** What an `onValidate()` call returns, as far as the controller can
      tell: `true`, `false`, or nothing (`undefined`). */
  datatype Value = True | False | Undefined

  /** JavaScript truthiness: of the three, only `true` is truthy. */
  predicate Truthy(v: Value)
  {
    v == True
  }

  /** JavaScript `a && b`: `a` when it is falsy, `b` otherwise. */
  function And(a: Value, b: Value): Value
  {
    if Truthy(a) then b else a
  }

  /** The value `valid` holds after the loop has folded the validator
      results `rs`, taken in order, into `valid = r && valid`. */
  function Fold(rs: seq<Value>): Value
  {
    if rs == [] then True else And(rs[|rs| - 1], Fold(rs[..|rs| - 1]))
  }

  /** The fold is truthy exactly when every validator returned `true`;
      in particular one `undefined` makes it falsy. */
  lemma {:induction false} FoldTruthy(rs: seq<Value>)
    ensures Truthy(Fold(rs)) <==> forall k :: 0 <= k < |rs| ==> Truthy(rs[k])
    decreases |rs|
  {
    if rs != [] {
      var init := rs[..|rs| - 1];
      FoldTruthy(init);
      assert forall k :: 0 <= k < |init| ==> init[k] == rs[k];
    }
  }

  /** A falsy fold is the result of the last validator that did not return
      `true`: `undefined` survives to the end unless a later `false` follows. */
  lemma {:induction false} FoldIsLastFailure(rs: seq<Value>)
    requires !Truthy(Fold(rs))
    ensures exists j :: 0 <= j < |rs| && Fold(rs) == rs[j] && forall k :: j < k < |rs| ==> Truthy(rs[k])
    decreases |rs|
  {
    var last := |rs| - 1;
    if Truthy(rs[last]) {
      var init := rs[..last];
      FoldIsLastFailure(init);
      var j :| 0 <= j < |init| && Fold(init) == init[j] && forall k :: j < k < |init| ==> Truthy(init[k]);
      assert Fold(rs) == rs[j];
    } else {
      assert Fold(rs) == rs[last];
    }
  }

  /** The indices `lo, lo + 1, ..., hi - 1`, in increasing order. */
  function Span(lo: nat, hi: nat): seq<nat>
    requires lo <= hi
  {
    seq(hi - lo, k requires 0 <= k < hi - lo => lo + k)
  }

  /** `validateSteps(start, end)`, where `results[i]` is what
      `steps[i].onValidate()` returns on this call. Besides the value it
      returns, `called` lists the indices whose validator was called, in
      call order. With `start` = -1 (the current id is not in the list) the
      first pass reads `steps[-1].onValidate` and raises a TypeError. */
  method ValidateSteps(results: seq<Value>, start: int, end: int) returns (valid: Result<Value>, called: seq<nat>)
    requires -1 <= start
    requires end <= |results|
    ensures start < 0 && start < end ==> valid == Err(TypeError) && called == []
    ensures end <= start ==> valid == Ok(True) && called == []
    ensures 0 <= start <= end ==> valid == Ok(Fold(results[start..end])) && called == Span(start, end)
    ensures valid.Ok? ==> (Truthy(valid.value) <==> forall k :: start <= k < end ==> Truthy(results[k]))
  {
    var v := True;
    called := [];
    var i := start;
    while i < end
      invariant i == start || 0 <= start <= i <= end
      invariant i == start ==> v == True && called == []
      invariant 0 <= start <= i <= end ==> v == Fold(results[start..i]) && called == Span(start, i)
    {
      if i < 0 {
        return Err(TypeError), called;
      }
      var r := results[i];
      called := called + [i];
      assert Span(start, i + 1) == Span(start, i) + [i];
      assert results[start..i + 1][..i - start] == results[start..i];
      v := And(r, v);
      if v == Undefined {
        v := And(True, v);
      }
      i := i + 1;
    }
    valid := Ok(v);
    if 0 <= start <= end {
      FoldTruthy(results[start..end]);
      assert forall k :: start <= k < end ==> results[start..end][k - start] == results[k];
    }
  }
}
