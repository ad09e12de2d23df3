/** The `App` component as an object whose two state fields the handlers update in place. */
module AppComponent {
  import opened Wrappers
  import opened Counter

  class App {
    var counter: int
    var error: Option<string>

    /** The component's current `this.state`. */
    function Snapshot(): State
      reads this
    {
      State(counter, error)
    }

    constructor ()
      ensures Snapshot() == Initial
    {
      counter := 0;
      error := None;
    }

    /** `this.setState(u)`: overwrite the keys present in `u`, keep the others. */
    method SetState(u: Update)
      modifies this
      ensures Snapshot() == Merge(old(Snapshot()), u)
      ensures u.counter.Some? ==> counter == u.counter.value
      ensures u.error.Some? ==> error == u.error.value
      ensures u.counter.None? ==> counter == old(counter)
      ensures u.error.None? ==> error == old(error)
    {
      if u.counter.Some? {
        counter := u.counter.value;
      }
      if u.error.Some? {
        error := u.error.value;
      }
    }

    /** The increment button's click handler. */
    method Increment()
      modifies this
      ensures counter == old(counter) + 1 && error == None
      ensures Snapshot() == Counter.Increment(old(Snapshot()))
    {
      SetState(Update(Some(counter + 1), Some(None)));
    }

    /** The decrement button's click handler. */
    method Decrement()
      modifies this
      ensures old(counter) == 0 ==> counter == 0 && error == Some(BelowZeroMessage)
      ensures old(counter) != 0 ==> counter == old(counter) - 1 && error == old(error)
      ensures Snapshot() == Counter.Decrement(old(Snapshot()))
    {
      if counter == 0 {
        SetState(Update(None, Some(Some(BelowZeroMessage))));
      } else {
        SetState(Update(Some(counter - 1), None));
      }
    }
  }
}
