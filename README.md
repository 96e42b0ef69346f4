# Step navigation of StatefulPageWizard

This project models the navigation controller inside `StatefulPageWizard`.
That is the stateful wrapper of the IoT page wizard. It keeps the id of the
current step and an ordered list of steps. Each step has an `id`, a
`disabled` flag and an `onValidate` callback. The controller does four things:

- It picks the initial step: the `currentStepId` prop when that is truthy,
  otherwise the first step's id.
- It finds the next and previous step (`getAvailableStep`). The scan starts
  one past the current index and skips steps whose `disabled` is `true`.
- It moves on a Next or Back click (`handleNext`, `handleBack`). It sets the
  current id and calls `onNext` / `onBack` when the host supplied them.
- It gates a jump from the progress indicator (the `setStep` handler with
  `validateSteps`). A jump backward or to the same index is always taken. A
  jump forward is taken only if every validator from the current index up to
  (not including) the target returns a truthy value.

Modules:

- `Steps` (`steps.dfy`): the step record, `findIndex` as `IndexOf`, and the
  initial id.
- `AvailableStep` (`scan.dfy`): the scan, both as a method with the
  source's `while (true)` loops and as an explicit loop-pass function `Pass`.
  `Run` iterates `Pass`, so lemmas can state exactly when the loop never ends.
- `Validation` (`validation.dfy`): JavaScript's three possible validator
  results, `&&` on them, and the `validateSteps` loop.
- `PageWizard` (`wizard.dfy`): the class `StatefulPageWizard`. Its fields are
  the step list, the current id and an ordered log of every call made to the
  host (`onNext`, `onBack`, `setStep` and each validator).

The model follows the code wherever it differs from a tidier reading of the
component's intent:

- A validator that returns `undefined` blocks a forward jump. Line 137,
  `valid = true && valid`, leaves `undefined` unchanged, and `undefined` is
  falsy at line 151. `Validation.FoldIsLastFailure` shows that the value the
  fold returns is the last non-`true` result.
- A jump to an id that is not in the list has index -1. Because -1 is at or
  below the current index, the jump is accepted, and the current id becomes
  an id with no step.
- From such an unknown current id (index -1), a forward jump runs
  `steps[-1].onValidate()`. That raises a TypeError before any validator
  runs. `HandleSetStep` returns `Err(TypeError)` for it.
- Next with no later step, and Back with no earlier one, read `.id` of
  `undefined` and raise. `Next` and `Back` return `Err(TypeError)` and
  change nothing.
- If every step from the scan's start to the boundary is disabled, the scan
  never returns the boundary step. The index stops changing and the loop
  spins forever. `Spins` says exactly when this happens, and
  `SpinsIffNeverLeaves` proves it. The model contains no loop that never
  ends, so the scan method requires `!Spins`. Rendering computes both scans, so
  `Next` and `Back` require `Renders()`, which means neither scan spins.

## Model

| member | source | states |
|---|---|---|
| `Steps.IndexOf` | src/components/PageWizard/StatefulPageWizardIot.jsx:78 | `findIndex` by id gives -1 exactly when no step has the id; otherwise it gives the first index whose step has that id |
| `Steps.InitialId` | src/components/PageWizard/StatefulPageWizardIot.jsx:77 | the initial id is the prop when the prop is truthy (not null and not empty); otherwise it is the id found at index 0; with a falsy prop and no steps it fails, and only then |
| `Steps.IndexOfStep` | src/components/PageWizard/StatefulPageWizardIot.jsx:150 | when ids are unique, looking up step j's id gives j |
| `AvailableStep.FirstEnabledFrom` | src/components/PageWizard/StatefulPageWizardIot.jsx:100-114 | the index it gives is the smallest index at or after i whose step is not disabled; it gives none exactly when every step from i on is disabled |
| `AvailableStep.LastEnabledUpTo` | src/components/PageWizard/StatefulPageWizardIot.jsx:83-98 | the index it gives is the largest index at or before i whose step is not disabled; it gives none exactly when every step up to i is disabled |
| `AvailableStep.ForwardStaysInRun` | src/components/PageWizard/StatefulPageWizardIot.jsx:101-114 | inside a run of disabled steps that reaches the last index, the forward loop is still scanning after any number of passes |
| `AvailableStep.BackwardStaysInRun` | src/components/PageWizard/StatefulPageWizardIot.jsx:85-98 | inside a run of disabled steps that reaches index 0, the backward loop is still scanning after any number of passes |
| `AvailableStep.SpinsForever` | src/components/PageWizard/StatefulPageWizardIot.jsx:81-117 | when every step past the current one in the direction of travel is disabled, the scan never leaves its loop |
| `AvailableStep.ForwardLeaves` | src/components/PageWizard/StatefulPageWizardIot.jsx:100-114 | if an enabled step follows, or the start is past the end, the forward loop breaks within a bounded number of passes: with the first enabled step, or with `undefined` past the end |
| `AvailableStep.BackwardLeaves` | src/components/PageWizard/StatefulPageWizardIot.jsx:84-98 | if an enabled step precedes, or the start is below 0, the backward loop breaks within a bounded number of passes: with the last enabled step, or with `undefined` below 0 |
| `AvailableStep.Halts` | src/components/PageWizard/StatefulPageWizardIot.jsx:81-117 | a scan that does not spin breaks within `|steps| + 1` passes with the nearest enabled step in its direction; it yields `undefined` exactly when the current index is the last (forward) or at most 0 (backward) |
| `AvailableStep.SpinsIffNeverLeaves` | src/components/PageWizard/StatefulPageWizardIot.jsx:81-117 | the scan never leaves its loop if and only if `Spins` holds |
| `AvailableStep.GetAvailableStep` | src/components/PageWizard/StatefulPageWizardIot.jsx:81-117 | the loop returns the nearest step in the direction of travel that is not disabled, so never a disabled step; it returns `undefined` exactly at the boundary (current + 1 >= length forward, current <= 0 backward) |
| `Validation.FoldTruthy` | src/components/PageWizard/StatefulPageWizardIot.jsx:132-141 | the accumulated `valid` is truthy if and only if every validator returned `true`; one `false` or one `undefined` makes it falsy |
| `Validation.FoldIsLastFailure` | src/components/PageWizard/StatefulPageWizardIot.jsx:135-138 | a falsy accumulated value is the result of the last validator that did not return `true`, so the fix-up at line 137 never turns `undefined` into `true` |
| `Validation.ValidateSteps` | src/components/PageWizard/StatefulPageWizardIot.jsx:132-141 | every validator in `[start, end)` is called once, in increasing order, even after a failure; the result is truthy if and only if all returned `true`; an empty range gives `true` with no calls; a start of -1 raises a TypeError before any call |
| `PageWizard.StatefulPageWizard.constructor` | src/components/PageWizard/StatefulPageWizardIot.jsx:77-120 | mounting starts on the initial id and makes no calls to the host; it requires that the first render finishes, that is, that neither scan from the initial index spins, and it leaves the wizard in a state that renders |
| `PageWizard.StatefulPageWizard.HandleNext` | src/components/PageWizard/StatefulPageWizardIot.jsx:122-125 | the current id becomes `id`; `onNext(id)` is called exactly once if the prop is set, otherwise not at all; nothing else changes |
| `PageWizard.StatefulPageWizard.HandleBack` | src/components/PageWizard/StatefulPageWizardIot.jsx:127-130 | the current id becomes `id`; `onBack(id)` is called exactly once if the prop is set, otherwise not at all; nothing else changes |
| `PageWizard.StatefulPageWizard.Next` | src/components/PageWizard/StatefulPageWizardIot.jsx:147 | a Next click fails with a TypeError exactly when no step follows the current index, and then nothing changes; otherwise it moves to the nearest enabled step after the current index (by index, when ids are unique) and calls `onNext` with that id if the prop is set |
| `PageWizard.StatefulPageWizard.Back` | src/components/PageWizard/StatefulPageWizardIot.jsx:146 | a Back click fails with a TypeError exactly when the current index is at most 0, and then nothing changes; otherwise it moves to the nearest enabled step before the current index and calls `onBack` with that id if the prop is set |
| `PageWizard.StatefulPageWizard.HandleSetStep` | src/components/PageWizard/StatefulPageWizardIot.jsx:149-155 | a target index at or below the current one (an unknown id included) is accepted with no validator called; a forward target from index -1 raises before any call; otherwise every validator in `[current, target)` is called in order, and the jump is accepted if and only if all returned `true`; acceptance moves the current id and calls `setStep(id)`, and rejection changes neither |

## Left out

- Rendering is not part of this model: the JSX, PropTypes and defaultProps, i18n labels, the sticky footer and the progress-indicator layout props.
- `PageWizardIot` and the rendered children are not part of this model. The step list is given as a sequence of records, so `React.Children.map` (line 76) and a `null` children prop are not modelled.
- React hook timing is not modelled. A `useState` update takes effect at once. Later changes to the `currentStepId` prop are ignored after mount, as `useState` ignores them.
- What validators and the `onNext`, `onBack` and `setStep` callbacks do inside is not modelled. The model records only whether each is called, in what order, and, for validators, what they return.
- Validator results are limited to `true`, `false` and `undefined`. Other truthy or falsy JavaScript values, and validators that throw, are not modelled.
- A `disabled` prop is a boolean that is true exactly when the source's `=== true` test holds.
- The non-terminating scan is not run. `Spins` and `SpinsIffNeverLeaves` describe it, and `GetAvailableStep`, `Next`, `Back` and the constructor require that it does not happen. A jump into a state whose next render would spin is still modelled, because the jump itself completes.
- The other files in the repository are thin rendering wrappers with no navigation logic, so they are not part of this model: `ColorDropdown`, `CardEditor`, `TileGallery` and `TileGallerySearch`.
