/**
 * The click counter of the `App` component as a pure state machine:
 * the component's state snapshot, React's merging `setState`, the two
 * button handlers as transitions, and what `render` shows.
 */
module Counter {
  import opened Wrappers

  /** The text the decrement handler stores when the counter is at zero. */
  const BelowZeroMessage: string := "You can't go below zero."

  /** `this.state`: the counter and the nullable error message. */
  datatype State = State(counter: int, error: Option<string>)

  /** The state the constructor installs. */
  const Initial: State := State(0, None)

  /**
   * The object passed to `setState`: each key is either absent (`None`)
   * or present with its new value. `error: Some(None)` sets `error` to null.
   */
  datatype Update = Update(counter: Option<int>, error: Option<Option<string>>)

  /** React's `setState` merge: present keys overwrite, absent keys are kept. */
  function Merge(s: State, u: Update): (r: State)
    ensures r.counter == (if u.counter.Some? then u.counter.value else s.counter)
    ensures r.error == (if u.error.Some? then u.error.value else s.error)
  {
    State(
      match u.counter case Some(c) => c case None => s.counter,
      match u.error case Some(e) => e case None => s.error)
  }

  /** The increment button's click handler, applied to a snapshot. */
  function Increment(s: State): (r: State)
    ensures r.counter == s.counter + 1
    ensures r.error == None
  {
    Merge(s, Update(Some(s.counter + 1), Some(None)))
  }

  /** The decrement button's click handler, applied to a snapshot. */
  function Decrement(s: State): (r: State)
    ensures s.counter == 0 ==> r == State(0, Some(BelowZeroMessage))
    ensures s.counter != 0 ==> r == State(s.counter - 1, s.error)
  {
    if s.counter == 0 then
      Merge(s, Update(None, Some(Some(BelowZeroMessage))))
    else
      Merge(s, Update(Some(s.counter - 1), None))
  }

  /** A click on one of the two buttons. */
  datatype Click = IncrementClick | DecrementClick

  function Step(s: State, c: Click): State {
    match c
    case IncrementClick => Increment(s)
    case DecrementClick => Decrement(s)
  }

  /** The state after the clicks, in order, starting from `s`. */
  function Run(s: State, clicks: seq<Click>): State
    decreases |clicks|
  {
    if |clicks| == 0 then s
    else Step(Run(s, clicks[..|clicks| - 1]), clicks[|clicks| - 1])
  }

  /** What `render` shows: the counter in the heading and, possibly, an error line. */
  datatype Display = Display(heading: int, errorLine: Option<string>)

  /**
   * JavaScript truthiness of `error`: `null` and the empty string are falsy,
   * every other string is truthy.
   */
  predicate Truthy(e: Option<string>) {
    e.Some? && e.value != ""
  }

  /** `render`: the error line is produced only when `error` is truthy, showing its text. */
  function View(s: State): (d: Display)
    ensures d.heading == s.counter
    ensures d.errorLine.Some? <==> Truthy(s.error)
    ensures d.errorLine.Some? ==> d.errorLine == s.error
  {
    Display(s.counter, if Truthy(s.error) then s.error else None)
  }
}
