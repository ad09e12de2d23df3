/** What the click counter promises, stated over the pure model. */
module CounterProperties {
  import opened Wrappers
  import opened Counter

  /** The counter is never below zero. */
  predicate NonNegative(s: State) {
    s.counter >= 0
  }

  /** An error is only ever shown while the counter is at zero. */
  predicate ErrorOnlyAtZero(s: State) {
    s.error.Some? ==> s.counter == 0
  }

  /** The only error text that can ever be stored is the below-zero message. */
  predicate ErrorIsMessage(s: State) {
    s.error == None || s.error == Some(BelowZeroMessage)
  }

  // ---- Single transitions ----

  /** The constructor's state: counter 0, no error, so no error line. */
  lemma InitialState()
    ensures Initial.counter == 0 && Initial.error == None
    ensures View(Initial) == Display(0, None)
  {
  }

  /**
   * Decrementing neither repairs nor breaks the floor: the result is
   * non-negative exactly when the counter was, since the guard tests for
   * zero and not for "at most zero".
   */
  lemma DecrementKeepsFloor(s: State)
    ensures NonNegative(Decrement(s)) <==> NonNegative(s)
  {
  }

  lemma NonNegativePreserved(s: State, c: Click)
    requires NonNegative(s)
    ensures NonNegative(Step(s, c))
  {
  }

  lemma ErrorOnlyAtZeroPreserved(s: State, c: Click)
    requires ErrorOnlyAtZero(s)
    ensures ErrorOnlyAtZero(Step(s, c))
  {
  }

  lemma ErrorIsMessagePreserved(s: State, c: Click)
    requires ErrorIsMessage(s)
    ensures ErrorIsMessage(Step(s, c))
  {
  }

  /** A second rejected decrement changes nothing. */
  lemma DecrementIdempotentAtZero(s: State)
    requires s.counter == 0
    ensures Decrement(Decrement(s)) == Decrement(s)
  {
  }

  /**
   * Increment then decrement restores the counter and clears the error,
   * exactly when the incremented counter is not zero (that is, unless the
   * counter started at -1, where the decrement is rejected instead).
   */
  lemma IncrementThenDecrement(s: State)
    ensures Decrement(Increment(s)) == State(s.counter, None) <==> s.counter != -1
  {
  }

  /**
   * Decrement then increment is not a round trip at zero: the rejected
   * decrement leaves the counter at 0 and the increment takes it to 1.
   */
  lemma DecrementThenIncrement(s: State)
    ensures Increment(Decrement(s)) == State(if s.counter == 0 then 1 else s.counter, None)
  {
  }

  // ---- Sequences of clicks ----

  /** Clicking decrement `n` times. */
  function Decrements(n: nat): (clicks: seq<Click>)
    ensures |clicks| == n
    ensures forall i :: 0 <= i < n ==> clicks[i] == DecrementClick
  {
    if n == 0 then [] else Decrements(n - 1) + [DecrementClick]
  }

  /** At zero, any positive number of decrements has the effect of one. */
  lemma {:induction false} RepeatedDecrementAtZero(s: State, n: nat)
    requires s.counter == 0
    requires n >= 1
    ensures Run(s, Decrements(n)) == Decrement(s)
  {
    var clicks := Decrements(n);
    assert clicks[..n - 1] == Decrements(n - 1);
    if n > 1 {
      RepeatedDecrementAtZero(s, n - 1);
    } else {
      assert Decrements(0) == [];
    }
  }

  lemma {:induction false} RunPreservesNonNegative(s: State, clicks: seq<Click>)
    requires NonNegative(s)
    ensures NonNegative(Run(s, clicks))
    decreases |clicks|
  {
    if |clicks| > 0 {
      RunPreservesNonNegative(s, clicks[..|clicks| - 1]);
      NonNegativePreserved(Run(s, clicks[..|clicks| - 1]), clicks[|clicks| - 1]);
    }
  }

  lemma {:induction false} RunPreservesErrorOnlyAtZero(s: State, clicks: seq<Click>)
    requires ErrorOnlyAtZero(s)
    ensures ErrorOnlyAtZero(Run(s, clicks))
    decreases |clicks|
  {
    if |clicks| > 0 {
      RunPreservesErrorOnlyAtZero(s, clicks[..|clicks| - 1]);
      ErrorOnlyAtZeroPreserved(Run(s, clicks[..|clicks| - 1]), clicks[|clicks| - 1]);
    }
  }

  lemma {:induction false} RunPreservesErrorIsMessage(s: State, clicks: seq<Click>)
    requires ErrorIsMessage(s)
    ensures ErrorIsMessage(Run(s, clicks))
    decreases |clicks|
  {
    if |clicks| > 0 {
      RunPreservesErrorIsMessage(s, clicks[..|clicks| - 1]);
      ErrorIsMessagePreserved(Run(s, clicks[..|clicks| - 1]), clicks[|clicks| - 1]);
    }
  }

  /**
   * Every state the widget can reach by clicking: the counter is
   * non-negative, an error appears only at zero and is the below-zero
   * message, and the error line is shown exactly when an error is stored.
   */
  lemma {:induction false} Reachable(clicks: seq<Click>)
    ensures NonNegative(Run(Initial, clicks))
    ensures ErrorOnlyAtZero(Run(Initial, clicks))
    ensures ErrorIsMessage(Run(Initial, clicks))
    ensures View(Run(Initial, clicks)).errorLine == Run(Initial, clicks).error
  {
    RunPreservesNonNegative(Initial, clicks);
    RunPreservesErrorOnlyAtZero(Initial, clicks);
    RunPreservesErrorIsMessage(Initial, clicks);
  }

  // ---- When the error is shown ----

  /** Click `i` was a decrement rejected because the counter was zero just before it. */
  predicate Rejected(s: State, clicks: seq<Click>, i: nat)
    requires i < |clicks|
  {
    clicks[i] == DecrementClick && Run(s, clicks[..i]).counter == 0
  }

  /** Some click was a rejected decrement and every later click was a decrement. */
  predicate FlaggedHistory(s: State, clicks: seq<Click>) {
    exists i: nat :: i < |clicks| && Rejected(s, clicks, i) &&
      forall j :: i < j < |clicks| ==> clicks[j] == DecrementClick
  }

  /**
   * Starting without an error, an error is stored exactly when the most
   * recent increment (if any) was followed by a rejected decrement.
   */
  lemma {:induction false} ErrorIffRejectedSinceIncrement(s: State, clicks: seq<Click>)
    requires s.error == None
    ensures Run(s, clicks).error.Some? <==> FlaggedHistory(s, clicks)
    decreases |clicks|
  {
    if |clicks| > 0 {
      var n := |clicks|;
      var p := clicks[..n - 1];
      var t := Run(s, p);
      assert clicks[..n - 1] == p;
      if clicks[n - 1] == IncrementClick {
        assert !FlaggedHistory(s, clicks);
      } else if t.counter == 0 {
        assert Rejected(s, clicks, n - 1);
      } else {
        ErrorIffRejectedSinceIncrement(s, p);
        if FlaggedHistory(s, p) {
          var i: nat :| i < |p| && Rejected(s, p, i) &&
            forall j :: i < j < |p| ==> p[j] == DecrementClick;
          assert clicks[..i] == p[..i];
          assert Rejected(s, clicks, i);
        }
        if FlaggedHistory(s, clicks) {
          var i: nat :| i < |clicks| && Rejected(s, clicks, i) &&
            forall j :: i < j < |clicks| ==> clicks[j] == DecrementClick;
          assert i < n - 1;
          assert clicks[..i] == p[..i];
          assert Rejected(s, p, i);
        }
      }
    }
  }

  // ---- The behaviours the test suite checks ----

  /** Incrementing from 7 shows 8 in the heading. */
  lemma IncrementFromSeven()
    ensures View(Increment(Merge(Initial, Update(Some(7), None)))).heading == 8
  {
  }

  /** Decrementing from 7 with no error gives 6. */
  lemma DecrementFromSeven()
    ensures Decrement(State(7, None)).counter == 6
  {
  }

  /** Decrementing at zero keeps the counter at 0 and shows the error line. */
  lemma DecrementAtZeroShowsError()
    ensures Decrement(State(0, None)).counter == 0
    ensures View(Decrement(State(0, None))).errorLine == Some(BelowZeroMessage)
  {
  }

  /** Incrementing while the error is shown clears it and removes the error line. */
  lemma IncrementClearsShownError()
    ensures Increment(State(0, Some(BelowZeroMessage))).error == None
    ensures View(Increment(State(0, Some(BelowZeroMessage)))).errorLine == None
  {
  }
}
