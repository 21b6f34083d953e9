/** The write-once cell under both the wait cell and the one-shot channel, as a value and in place. */
module OnceCells {
  import opened Common

  datatype State<T> = State(message: Option<T>, ready: bool)

  /** Ready means that a message is there. */
  predicate Sensible<T>(s: State<T>) {
    s.ready ==> s.message.Some?
  }

  function Stored<T>(m: T): State<T> {
    State(Some(m), true)
  }

  /** What taking the message out gives, and the cell afterwards. */
  function Taken<T>(s: State<T>): (Option<T>, State<T>) {
    if s.ready then (s.message, State(None, false)) else (None, s)
  }

  /** What copying the message gives. */
  function Copied<T>(s: State<T>): Option<T> {
    if s.ready then s.message else None
  }

  /** A stored message can be copied any number of times and taken once, and then there is nothing to copy or to take. */
  lemma StoredOnce<T>(m: T)
    ensures Copied(Stored(m)) == Some(m)
    ensures var (got, rest) := Taken(Stored(m));
            got == Some(m) && Copied(rest) == None && Taken(rest) == (None, rest)
  {
  }

  class OnceCell<T> {
    var message: Option<T>
    var ready: bool

    ghost function View(): State<T>
      reads this
    {
      State(message, ready)
    }

    constructor ()
      ensures View() == State(None, false)
    {
      message, ready := None, false;
    }

    /** The source panics when the cell has been set and not taken. */
    method Set(m: T)
      requires !ready
      modifies this
      ensures View() == Stored(m)
    {
      message := Some(m);
      ready := true;
    }

    method GetOnce() returns (m: Option<T>)
      requires Sensible(View())
      modifies this
      ensures (m, View()) == Taken(old(View()))
    {
      var was := ready;
      ready := false;
      if was {
        m := message;
        message := None;
      } else {
        m := None;
      }
    }

    method GetClone() returns (m: Option<T>)
      requires Sensible(View())
      ensures m == Copied(View())
    {
      m := if ready then message else None;
    }
  }
}
