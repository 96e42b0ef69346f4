/** The step list of a stateful page wizard and the two lookups the controller
    makes on it: the initial current step and `findIndex` by id. */
module Steps {

  /** What the component raises when it reads a property of `undefined`
      (`steps[0].id` on an empty list, `nextStep.id` with no next step,
      `steps[-1].onValidate()`). */
  datatype Error = TypeError

  datatype Option<+T> = None | Some(value: T)

  datatype Result<+T> = Ok(value: T) | Err(error: Error)

  /** The props of one wizard child, as far as navigation uses them.
      `disabled` holds exactly when the prop is `=== true`; an absent or
      non-boolean prop reads as false. The step's `onValidate` callback is
      represented by what it returns at each jump (see module Validation). */
  datatype Step = Step(id: string, disabled: bool)

  /** `steps.findIndex(i => i.id === id)`: the first index whose step has
      this id, or -1 when there is none. */
  function IndexOf(steps: seq<Step>, id: string): (r: int)
    ensures -1 <= r < |steps|
    ensures r == -1 <==> forall k :: 0 <= k < |steps| ==> steps[k].id != id
    ensures r >= 0 ==> steps[r].id == id && forall k :: 0 <= k < r ==> steps[k].id != id
  {
    if |steps| == 0 then -1
    else if steps[0].id == id then 0
    else
      var r := IndexOf(steps[1..], id);
      if r == -1 then -1 else r + 1
  }

  /** JavaScript truthiness of the optional `currentStepId` prop: `null`,
      `undefined` and the empty string are falsy. */
  predicate IsTruthyId(prop: Option<string>)
  {
    prop.Some? && prop.value != ""
  }

  /** The id the wizard starts on: `currentStepIdProp || (steps && steps[0].id)`.
      A falsy prop with an empty step list reads `.id` of `undefined`. */
  function InitialId(prop: Option<string>, steps: seq<Step>): (r: Result<string>)
    ensures r.Err? <==> !IsTruthyId(prop) && steps == []
    ensures IsTruthyId(prop) ==> r == Ok(prop.value)
    ensures !IsTruthyId(prop) && steps != [] ==> r.Ok? && IndexOf(steps, r.value) == 0
  {
    if IsTruthyId(prop) then Ok(prop.value)
    else if steps == [] then Err(TypeError)
    else Ok(steps[0].id)
  }

  /** No two steps share an id (the wizard's intended use; not enforced). */
  predicate UniqueIds(steps: seq<Step>)
  {
    forall i, j :: 0 <= i < j < |steps| ==> steps[i].id != steps[j].id
  }

  /** With unique ids, looking up a step's id finds that very step. */
  lemma IndexOfStep(steps: seq<Step>, j: nat)
    requires UniqueIds(steps)
    requires j < |steps|
    ensures IndexOf(steps, steps[j].id) == j
  {
  }
}
