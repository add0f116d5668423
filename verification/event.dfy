/** The one-shot completion event the executor keeps its lifecycle in.

    Only the behaviour the executor depends on is modelled: a boolean that
    starts unset, becomes set, and never becomes unset again. The mutex, the
    condition variable and the wake-up of blocked waiters are not part of this
    model; waiting is approximated for a single caller. */
module CompletionEvent {
  import opened Wrappers

  datatype Event = Event(signaled: bool)

  /** Whether the event has been set. */
  predicate IsSet(e: Event)
  {
    e.signaled
  }

  /** `b` is a possible later observation of `a`: a set event stays set. */
  predicate Follows(a: Event, b: Event)
  {
    IsSet(a) ==> IsSet(b)
  }

  /** A newly created event is unset. */
  function Init(): (e: Event)
    ensures !IsSet(e)
  {
    Event(false)
  }

  /** Sets the event. Setting an event that is already set changes nothing. */
  function Set(e: Event): (e': Event)
    ensures IsSet(e')
    ensures IsSet(e) ==> e' == e
  {
    Event(true)
  }

  /** Waits for the event, as observed by a caller with no other caller able to
      set it meanwhile: a set event releases the caller at once with `true`; an
      unset event with a timeout returns `false` once the timeout has elapsed
      (a zero or negative timeout checks and returns at once); an unset event
      with no timeout never releases the caller, written `None`. */
  function Wait(e: Event, timeout: Option<real>): (r: Option<bool>)
    ensures r == Some(true) <==> IsSet(e)
    ensures r == None <==> !IsSet(e) && timeout.None?
  {
    if IsSet(e) then Some(true)
    else if timeout.Some? then Some(false)
    else None
  }

  /** Setting is idempotent: setting twice is setting once. */
  lemma SetIdempotent(e: Event)
    ensures Set(Set(e)) == Set(e)
  {
  }
}
