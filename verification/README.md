# Click counter

A model of the `App` component of a React click counter. The component holds
two state fields, `counter` (an integer, initially 0) and `error` (a nullable
string, initially `null`). The "Increment counter" button sets `counter + 1`
and clears `error`. The "Decrement counter" button refuses to go below zero:
at zero it stores the message "You can't go below zero." and leaves `counter`
alone; otherwise it stores `counter - 1` and, because React's `setState` merges
the update into the existing state, leaves `error` as it was. `render` shows
the counter in a heading and shows an error line only when `error` is truthy.

Files:

- `wrappers.dfy`: `Option`, with `None` for JavaScript `null`.
- `counter.dfy` (module `Counter`): the state snapshot, the partial update
  that `setState` receives and its merge, the two handlers as transitions on
  snapshots, a click sequence and its run, and `View`, the part of `render`
  that depends on state.
- `properties.dfy` (module `CounterProperties`): the invariants and their
  preservation, idempotence at the floor, the round trips, the
  characterisation of when the error is stored, and the behaviours the test
  suite checks.
- `app.dfy` (module `AppComponent`): the component as a class `App` with
  fields `counter` and `error`, whose handler methods update the fields in
  place and are proved to agree with the transitions of `Counter`.

Behaviours of the code worth knowing:

- A successful decrement does not clear `error`: src/App.js:28 passes only
  `counter` to `setState`, so `error` is kept (`Counter.Decrement`). In
  states reachable from the initial one this changes nothing, because an
  error is only ever stored at zero (`CounterProperties.Reachable`).
- The error line depends on JavaScript truthiness: the condition at
  src/App.js:32 treats the empty string as falsy, so `View` shows no line
  for an empty error. The handlers never store an empty string, so in
  reachable states the line appears exactly when `error` is non-null
  (`CounterProperties.Reachable`).
- The decrement guard is `counter === 0`, not `counter <= 0`. From a negative
  counter (which only a direct `setState` can produce) decrement goes further
  below zero; `CounterProperties.DecrementKeepsFloor` states both directions.

## Model

| member | source | states |
|---|---|---|
| Counter.Increment | src/App.js:21 | the new counter is the old one plus one and the error is null, whatever the prior state |
| Counter.Decrement | src/App.js:24-30 | at zero the counter stays 0 and the error becomes exactly "You can't go below zero."; otherwise the counter drops by one and the error is kept unchanged (setState merge) |
| Counter.Merge | src/App.js:21-28 | React's shallow `setState` merge: a key present in the update replaces its field, an absent key keeps it |
| Counter.View | src/App.js:14-32 | the heading shows the counter; an error line is shown exactly when the error is truthy in JavaScript's sense (`Counter.Truthy`: non-null and non-empty, as the condition at src/App.js:32 tests) and its text is the error |
| CounterProperties.InitialState | src/App.js:8-11 | the initial state has counter 0 and no error, so no error line is rendered |
| CounterProperties.DecrementKeepsFloor | src/App.js:25-28 | after a decrement the counter is non-negative if and only if it was before |
| CounterProperties.NonNegativePreserved | src/App.js:21-28 | either click keeps a non-negative counter non-negative |
| CounterProperties.ErrorOnlyAtZeroPreserved | src/App.js:21-28 | either click keeps "an error is stored only when the counter is 0" |
| CounterProperties.ErrorIsMessagePreserved | src/App.js:21-28 | either click keeps "the stored error is null or the below-zero message" |
| CounterProperties.DecrementIdempotentAtZero | src/App.js:25-26 | at zero, decrementing twice gives the same state as decrementing once |
| CounterProperties.RepeatedDecrementAtZero | src/App.js:25-26 | at zero, any positive number of decrement clicks gives the same state as one |
| CounterProperties.IncrementThenDecrement | src/App.js:21-28 | increment then decrement gives back the counter with the error cleared, if and only if the counter was not -1 |
| CounterProperties.DecrementThenIncrement | src/App.js:21-28 | decrement then increment clears the error and gives back the counter, except at zero where it gives 1 |
| CounterProperties.RunPreservesNonNegative | src/App.js:21-28 | from a non-negative counter, every sequence of clicks ends with a non-negative counter |
| CounterProperties.RunPreservesErrorOnlyAtZero | src/App.js:21-28 | from a state whose error implies counter 0, every sequence of clicks ends in such a state |
| CounterProperties.RunPreservesErrorIsMessage | src/App.js:21-28 | from a state whose error is null or the message, every sequence of clicks ends in such a state |
| CounterProperties.Reachable | src/App.js:8-32 | every state reached from the initial one by clicks has counter >= 0, an error only at 0, only the below-zero message as error, and an error line exactly when an error is stored |
| CounterProperties.ErrorIffRejectedSinceIncrement | src/App.js:21-28 | starting without an error, an error is stored after a click sequence if and only if some decrement was rejected at zero and only decrements followed it |
| CounterProperties.IncrementFromSeven | src/App.test.js:54-66 | with the counter set to 7, an increment shows 8 in the heading |
| CounterProperties.DecrementFromSeven | src/App.test.js:81-89 | from counter 7 and no error, a decrement gives 6 |
| CounterProperties.DecrementAtZeroShowsError | src/App.test.js:91-112 | from counter 0 and no error, a decrement keeps 0 and shows the error line with the below-zero message |
| CounterProperties.IncrementClearsShownError | src/App.test.js:114-125 | from counter 0 with the message stored, an increment clears the error and removes the error line |
| AppComponent.App.constructor | src/App.js:6-12 | a new component has counter 0 and error null |
| AppComponent.App.SetState | src/App.js:21-28 | React's `this.setState` merge, as the handlers call it at src/App.js:21, 26 and 28 and the test setup at src/App.test.js:16-19: the keys present in the update overwrite the fields; absent keys leave their field unchanged |
| AppComponent.App.Increment | src/App.js:21 | the fields become counter + 1 and null, the same state as `Counter.Increment` of the old state |
| AppComponent.App.Decrement | src/App.js:24-30 | at zero only `error` changes, to the message; otherwise only `counter` changes, to counter - 1; the same state as `Counter.Decrement` of the old state |

## Left out

- JSX markup, the `data-test` attributes, the red inline style and the `logo.svg` and `App.css` imports (src/App.js:2-3, 18-32): presentation only. `View` returns the counter shown in the heading as a number, not the heading text "The counter is currently …".
- The two buttons themselves: they are rendered unconditionally and carry no state, so only their click handlers are modelled.
- React's scheduling and batching of `setState`: each handler's update is one synchronous merge of the given keys into the state.
- The Enzyme and Jest harness (src/App.test.js:1-28): the behaviours its tests check are stated as lemmas instead.
- Counter.Increment, Counter.Decrement, AppComponent.App.Increment and AppComponent.App.Decrement: the counter is an unbounded integer. A JavaScript number is a double, so beyond ±2^53 `counter + 1` (`counter - 1`) is rounded to a neighbouring double: clicking up from 0 stops at 2^53, and a larger counter set directly with `setState` may stay where it is or move by 2.
