/** `getAvailableStep`: the search for the next or previous step that skips
    disabled steps, including the case where it never ends. */
module AvailableStep {
  import opened Steps

  /** The first index at or after `i` whose step is not disabled, if any. */
  function FirstEnabledFrom(steps: seq<Step>, i: nat): (r: Option<nat>)
    decreases |steps| - i
    ensures r.Some? ==> i <= r.value < |steps| && !steps[r.value].disabled
    ensures r.Some? ==> forall k :: i <= k < r.value ==> steps[k].disabled
    ensures r.None? <==> forall k :: i <= k < |steps| ==> steps[k].disabled
  {
    if i >= |steps| then None
    else if !steps[i].disabled then Some(i)
    else FirstEnabledFrom(steps, i + 1)
  }

  /** The last index at or before `i` whose step is not disabled, if any. */
  function LastEnabledUpTo(steps: seq<Step>, i: int): (r: Option<nat>)
    requires i < |steps|
    decreases i
    ensures r.Some? ==> r.value <= i && !steps[r.value].disabled
    ensures r.Some? ==> forall k :: r.value < k <= i ==> steps[k].disabled
    ensures r.None? <==> forall k :: 0 <= k <= i ==> steps[k].disabled
  {
    if i < 0 then None
    else if !steps[i].disabled then Some(i)
    else LastEnabledUpTo(steps, i - 1)
  }

  /** The step the scan from `current` returns when it returns at all: the
      nearest step strictly after (`previous` false) or strictly before
      (`previous` true) the current index that is not disabled. */
  function Available(steps: seq<Step>, current: int, previous: bool): Option<Step>
    requires -1 <= current < |steps|
  {
    var j := if previous then LastEnabledUpTo(steps, current - 1) else FirstEnabledFrom(steps, current + 1);
    if j.Some? then Some(steps[j.value]) else None
  }

  /** The scan never leaves its loop: there is a step beyond `current` in the
      direction of travel, and every such step is disabled, so the index
      comes to rest on the disabled boundary step. */
  predicate Spins(steps: seq<Step>, current: int, previous: bool)
  {
    if previous then
      0 < current <= |steps| && forall k :: 0 <= k < current ==> steps[k].disabled
    else
      -1 <= current && current + 1 < |steps| && forall k :: current < k < |steps| ==> steps[k].disabled
  }

  /** The state of the `while (true)` loop: still at index `idx`, or left
      through a `break` with `value`. */
  datatype Scan = Scanning(idx: int) | Left(value: Option<Step>)

  /** One pass through the loop body (lines 86-97 backward, 102-113 forward). */
  function Pass(steps: seq<Step>, previous: bool, idx: int): Scan
    requires if previous then idx < |steps| else idx >= 0
  {
    if previous then
      if idx >= 0 then
        if steps[idx].disabled then Scanning(if idx != 0 then idx - 1 else idx)
        else Left(Some(steps[idx]))
      else Left(None)
    else
      if idx < |steps| then
        if steps[idx].disabled then Scanning(if idx != |steps| - 1 then idx + 1 else idx)
        else Left(Some(steps[idx]))
      else Left(None)
  }

  /** The loop state after `n` more passes, starting from `s`. */
  function Run(steps: seq<Step>, previous: bool, s: Scan, n: nat): Scan
    requires s.Scanning? ==> if previous then s.idx < |steps| else s.idx >= 0
    decreases n
  {
    if n == 0 || s.Left? then s
    else Run(steps, previous, Pass(steps, previous, s.idx), n - 1)
  }

  /** Where the scan starts: one step past the current index. */
  function Start(current: int, previous: bool): Scan
  {
    Scanning(if previous then current - 1 else current + 1)
  }

  /** From an index inside a run of disabled steps that reaches the
      boundary, the forward loop stays in the run. */
  lemma {:induction false} ForwardStaysInRun(steps: seq<Step>, idx: nat, n: nat)
    requires idx < |steps|
    requires forall k :: idx <= k < |steps| ==> steps[k].disabled
    ensures Run(steps, false, Scanning(idx), n).Scanning?
    decreases n
  {
    if n > 0 {
      var next := if idx != |steps| - 1 then idx + 1 else idx;
      assert Pass(steps, false, idx) == Scanning(next);
      ForwardStaysInRun(steps, next, n - 1);
    }
  }

  /** The backward counterpart of ForwardStaysInRun. */
  lemma {:induction false} BackwardStaysInRun(steps: seq<Step>, idx: nat, n: nat)
    requires idx < |steps|
    requires forall k :: 0 <= k <= idx ==> steps[k].disabled
    ensures Run(steps, true, Scanning(idx), n).Scanning?
    decreases n
  {
    if n > 0 {
      var next := if idx != 0 then idx - 1 else idx;
      assert Pass(steps, true, idx) == Scanning(next);
      BackwardStaysInRun(steps, next, n - 1);
    }
  }

  /** A scan that spins is still scanning after any number of passes. */
  lemma SpinsForever(steps: seq<Step>, current: int, previous: bool, n: nat)
    requires Spins(steps, current, previous)
    ensures Run(steps, previous, Start(current, previous), n).Scanning?
  {
    if previous {
      BackwardStaysInRun(steps, current - 1, n);
    } else {
      ForwardStaysInRun(steps, current + 1, n);
    }
  }

  /** From `idx`, the forward loop leaves within `|steps| - idx + 1` passes
      with the first enabled step at or after `idx`, if the run of disabled
      steps from `idx` does not reach the end. */
  lemma {:induction false} ForwardLeaves(steps: seq<Step>, idx: nat, n: nat)
    requires FirstEnabledFrom(steps, idx).Some? || idx >= |steps|
    requires n >= 1 && n >= |steps| - idx + 1
    ensures Run(steps, false, Scanning(idx), n)
         == Left(if idx >= |steps| then None else Some(steps[FirstEnabledFrom(steps, idx).value]))
    decreases n
  {
    var s := Pass(steps, false, idx);
    assert Run(steps, false, Scanning(idx), n) == Run(steps, false, s, n - 1);
    if idx < |steps| && steps[idx].disabled {
      assert idx != |steps| - 1;
      assert s == Scanning(idx + 1);
      ForwardLeaves(steps, idx + 1, n - 1);
    }
  }

  /** The backward counterpart of ForwardLeaves. */
  lemma {:induction false} BackwardLeaves(steps: seq<Step>, idx: int, n: nat)
    requires idx < |steps|
    requires LastEnabledUpTo(steps, idx).Some? || idx < 0
    requires n >= 1 && n >= idx + 2
    ensures Run(steps, true, Scanning(idx), n)
         == Left(if idx < 0 then None else Some(steps[LastEnabledUpTo(steps, idx).value]))
    decreases n
  {
    var s := Pass(steps, true, idx);
    assert Run(steps, true, Scanning(idx), n) == Run(steps, true, s, n - 1);
    if idx >= 0 && steps[idx].disabled {
      assert idx != 0;
      assert s == Scanning(idx - 1);
      BackwardLeaves(steps, idx - 1, n - 1);
    }
  }

  /** A scan that does not spin leaves its loop within `|steps| + 1` passes,
      with the nearest enabled step in the direction of travel, or with
      `undefined` when there is no step in that direction at all. */
  lemma Halts(steps: seq<Step>, current: int, previous: bool)
    requires -1 <= current < |steps|
    requires !Spins(steps, current, previous)
    ensures Run(steps, previous, Start(current, previous), |steps| + 1) == Left(Available(steps, current, previous))
    ensures Available(steps, current, previous).None? <==> if previous then current <= 0 else current + 1 >= |steps|
  {
    if previous {
      BackwardLeaves(steps, current - 1, |steps| + 1);
    } else {
      ForwardLeaves(steps, current + 1, |steps| + 1);
    }
  }

  /** Exactly the spinning scans never leave the loop. */
  lemma SpinsIffNeverLeaves(steps: seq<Step>, current: int, previous: bool)
    requires -1 <= current < |steps|
    ensures Spins(steps, current, previous) <==> forall n: nat :: Run(steps, previous, Start(current, previous), n).Scanning?
  {
    if Spins(steps, current, previous) {
      forall n: nat ensures Run(steps, previous, Start(current, previous), n).Scanning? {
        SpinsForever(steps, current, previous, n);
      }
    } else {
      Halts(steps, current, previous);
    }
  }

  /** `getAvailableStep(previous)` run from `current`, the index of the
      current step (-1 when its id is not in the list). */
  method GetAvailableStep(steps: seq<Step>, current: int, previous: bool) returns (value: Option<Step>)
    requires -1 <= current < |steps|
    requires !Spins(steps, current, previous)
    ensures value == Available(steps, current, previous)
    ensures value.Some? ==> !value.value.disabled
    ensures value.None? <==> if previous then current <= 0 else current + 1 >= |steps|
  {
    value := None;
    if previous {
      var idx := current - 1;
      while true
        invariant idx <= current - 1
        invariant idx < 0 ==> idx == current - 1
        invariant forall k :: idx < k < current ==> steps[k].disabled
        decreases idx
      {
        if idx >= 0 {
          if steps[idx].disabled {
            if idx != 0 {
              idx := idx - 1;
            } else {
              // every step before the current one is disabled: Spins holds
              assert false;
            }
          } else {
            value := Some(steps[idx]);
            break;
          }
        } else {
          break;
        }
      }
    } else {
      var idx := current + 1;
      while true
        invariant current + 1 <= idx <= |steps|
        invariant idx == |steps| ==> idx == current + 1
        invariant forall k :: current < k < idx ==> steps[k].disabled
        decreases |steps| - idx
      {
        if idx < |steps| {
          if steps[idx].disabled {
            if idx != |steps| - 1 {
              idx := idx + 1;
            } else {
              // every step after the current one is disabled: Spins holds
              assert false;
            }
          } else {
            value := Some(steps[idx]);
            break;
          }
        } else {
          break;
        }
      }
    }
  }
}
