/** The navigation state of `StatefulPageWizard`: the current step id, kept
    in component state and changed by the Next and Back buttons and by a
    click on the progress indicator (`setStep`). A state update is taken to
    take effect at once. */
module PageWizard {
  import opened Steps
  import opened AvailableStep
  import opened Validation

  /** A call the controller makes out to its host, recorded in the order made. */
  datatype Call = OnNext(id: string) | OnBack(id: string) | SetStep(id: string) | OnValidate(index: nat)

  /** One `OnValidate` call per index, in the same order. */
  function ValidateCalls(indices: seq<nat>): seq<Call>
  {
    seq(|indices|, k requires 0 <= k < |indices| => OnValidate(indices[k]))
  }

  class StatefulPageWizard {
    /** The children's props, in order; fixed for the life of the wizard. */
    const steps: seq<Step>
    /** Whether the `onNext` / `onBack` props are set (they default to null). */
    const hasOnNext: bool
    const hasOnBack: bool
    /** The `currentStepId` state. */
    var currentStepId: string
    /** Every call made to `onNext`, `onBack`, `setStep` and the validators. */
    var calls: seq<Call>

    /** Mounting: the state starts on InitialId, which fails (a TypeError)
        for an empty step list with no truthy `currentStepId` prop. Mounting
        also renders, and the render finishes only when neither scan from
        the initial index spins. */
    constructor (steps: seq<Step>, currentStepIdProp: Option<string>, onNext: bool, onBack: bool)
      requires InitialId(currentStepIdProp, steps).Ok?
      requires !Spins(steps, IndexOf(steps, InitialId(currentStepIdProp, steps).value), false)
      requires !Spins(steps, IndexOf(steps, InitialId(currentStepIdProp, steps).value), true)
      ensures this.steps == steps && hasOnNext == onNext && hasOnBack == onBack
      ensures currentStepId == InitialId(currentStepIdProp, steps).value
      ensures calls == []
      ensures Renders()
    {
      this.steps := steps;
      hasOnNext := onNext;
      hasOnBack := onBack;
      currentStepId := InitialId(currentStepIdProp, steps).value;
      calls := [];
    }

    /** `currentStepIndex`: -1 when the current id is not in the list. */
    function CurrentStepIndex(): int
      reads this
    {
      IndexOf(steps, currentStepId)
    }

    /** Rendering computes both `nextStep` and `prevStep`; it finishes only
        when neither scan spins. */
    predicate Renders()
      reads this
    {
      !Spins(steps, CurrentStepIndex(), false) && !Spins(steps, CurrentStepIndex(), true)
    }

    /** `handleNext(id)`: move to `id`, then tell the host if it asked. */
    method HandleNext(id: string)
      modifies this
      ensures currentStepId == id
      ensures calls == old(calls) + (if hasOnNext then [OnNext(id)] else [])
    {
      currentStepId := id;
      if hasOnNext {
        calls := calls + [OnNext(id)];
      }
    }

    /** `handleBack(id)`: move to `id`, then tell the host if it asked. */
    method HandleBack(id: string)
      modifies this
      ensures currentStepId == id
      ensures calls == old(calls) + (if hasOnBack then [OnBack(id)] else [])
    {
      currentStepId := id;
      if hasOnBack {
        calls := calls + [OnBack(id)];
      }
    }

    /** A click on Next: `handleNext(nextStep.id)`. The wizard moves to the
        nearest enabled step after the current one; with no step after it,
        reading `.id` of `undefined` raises and nothing changes. */
    method Next() returns (r: Result<string>)
      requires Renders()
      modifies this
      ensures r.Err? <==> old(CurrentStepIndex()) + 1 >= |steps|
      ensures r.Err? ==> r.error == TypeError && currentStepId == old(currentStepId) && calls == old(calls)
      ensures r.Ok? ==> Available(steps, old(CurrentStepIndex()), false) == Some(Step(r.value, false))
      ensures r.Ok? ==> currentStepId == r.value
      ensures r.Ok? ==> calls == old(calls) + (if hasOnNext then [OnNext(r.value)] else [])
      ensures r.Ok? && UniqueIds(steps) ==>
                CurrentStepIndex() == FirstEnabledFrom(steps, old(CurrentStepIndex()) + 1).value
    {
      var nextStep := GetAvailableStep(steps, CurrentStepIndex(), false);
      if nextStep.None? {
        return Err(TypeError);
      }
      ghost var j := FirstEnabledFrom(steps, CurrentStepIndex() + 1).value;
      HandleNext(nextStep.value.id);
      r := Ok(nextStep.value.id);
      if UniqueIds(steps) {
        IndexOfStep(steps, j);
      }
    }

    /** A click on Back: `handleBack(prevStep.id)`, the mirror image of Next. */
    method Back() returns (r: Result<string>)
      requires Renders()
      modifies this
      ensures r.Err? <==> old(CurrentStepIndex()) <= 0
      ensures r.Err? ==> r.error == TypeError && currentStepId == old(currentStepId) && calls == old(calls)
      ensures r.Ok? ==> Available(steps, old(CurrentStepIndex()), true) == Some(Step(r.value, false))
      ensures r.Ok? ==> currentStepId == r.value
      ensures r.Ok? ==> calls == old(calls) + (if hasOnBack then [OnBack(r.value)] else [])
      ensures r.Ok? && UniqueIds(steps) ==>
                CurrentStepIndex() == LastEnabledUpTo(steps, old(CurrentStepIndex()) - 1).value
    {
      var prevStep := GetAvailableStep(steps, CurrentStepIndex(), true);
      if prevStep.None? {
        return Err(TypeError);
      }
      ghost var j := LastEnabledUpTo(steps, CurrentStepIndex() - 1).value;
      HandleBack(prevStep.value.id);
      r := Ok(prevStep.value.id);
      if UniqueIds(steps) {
        IndexOfStep(steps, j);
      }
    }

    /** The `setStep` handler given to the progress indicator, with
        `results[i]` what `steps[i].onValidate()` returns on this call.
        A target at or before the current index (an unknown id has index -1)
        is taken without validation. A target after it is taken only when
        every validator from the current index up to, not including, the
        target returns `true`; all of them are called, in order. From an
        unknown current id a forward jump raises before any validator runs.
        `r` is `Ok(accepted)`; on acceptance the state moves and `setStep`
        is called. */
    method HandleSetStep(id: string, results: seq<Value>) returns (r: Result<bool>)
      requires |results| == |steps|
      modifies this
      ensures var target, current := IndexOf(steps, id), old(CurrentStepIndex());
              if target <= current then
                r == Ok(true) && currentStepId == id && calls == old(calls) + [SetStep(id)]
              else if current < 0 then
                r == Err(TypeError) && currentStepId == old(currentStepId) && calls == old(calls)
              else
                var accepted := forall k :: current <= k < target ==> Truthy(results[k]);
                r == Ok(accepted)
                && currentStepId == (if accepted then id else old(currentStepId))
                && calls == old(calls) + ValidateCalls(Span(current, target))
                                       + (if accepted then [SetStep(id)] else [])
    {
      var idx := IndexOf(steps, id);
      var current := CurrentStepIndex();
      var accepted := true;
      if !(idx <= current) {
        var valid, called := ValidateSteps(results, current, idx);
        calls := calls + ValidateCalls(called);
        if valid.Err? {
          return Err(TypeError);
        }
        accepted := Truthy(valid.value);
      }
      if accepted {
        currentStepId := id;
        calls := calls + [SetStep(id)];
      }
      r := Ok(accepted);
    }
  }
}
