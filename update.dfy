/**
 * Change notification (update.go). A wait captures the current signal,
 * blocks until that signal is tripped, and then reports whether the
 * store is closed. Blocking itself is not modelled: `Released` says when
 * a captured signal would let the waiter go.
 */
module Update {
  import opened State

  /** Go's `EventType byte`. */
  newtype EventType = b: int | 0 <= b < 256

  const EventClose: EventType := 0
  const EventLanguageChanged: EventType := 4

  /** The signal a wait starting now captures; it is already tripped iff the store is closed. */
  function BeginWait(s: StoreState): (i: nat)
    requires Inv(s)
    ensures i < |s.signals| && i + 1 == |s.signals|
    ensures s.signals[i] <==> s.closed
  {
    Current(s)
  }

  /** A waiter holding signal `i` no longer blocks. */
  predicate Released(s: StoreState, i: nat)
  {
    i < |s.signals| && s.signals[i]
  }

  /** The event a released waiter reports: decided by the closed flag at wake-up. */
  function Wait(s: StoreState, i: nat): (e: EventType)
    requires Released(s, i)
    ensures e == EventClose <==> s.closed
    ensures !s.closed ==> e == EventLanguageChanged
  {
    if s.closed then EventClose else EventLanguageChanged
  }

  /** `WaitAndClose`: true exactly when the wait reports a close. */
  function WaitAndClose(s: StoreState, i: nat): (b: bool)
    requires Released(s, i)
    ensures b <==> s.closed
  {
    Wait(s, i) == EventClose
  }
}
