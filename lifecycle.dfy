/**
 * Sequences of operations on one store. The mutex serialises every
 * operation, so a history is a sequence of atomic steps; these lemmas
 * state what holds after any history, and how waiters fare.
 */
module Lifecycle {
  import opened Options
  import opened State
  import Init
  import Set
  import Update

  /** The operations that can change a store (a `Get` or a wait reads only). */
  datatype Op =
    | SetLogOp(f: Option<nat>)
    | SetLanguageOp(lang: string, words: Option<Words>)
    | CloseOp
    | GetOp(id: string, def: string)

  /** Whether `op` succeeds in replacing the language of `s`. */
  predicate Changes(s: StoreState, op: Op)
    requires Inv(s)
  {
    op.SetLanguageOp? && Set.SetLanguageState(s, op.lang, op.words).err.None?
  }

  /**
   * One atomic step. Only a successful `SetLanguage` installs a new
   * signal; a closed store stays closed and, apart from its logger,
   * unchanged.
   */
  function Step(s: StoreState, op: Op): (r: StoreState)
    requires Inv(s)
    ensures Inv(r)
    ensures |r.signals| == |s.signals| + (if Changes(s, op) then 1 else 0)
    ensures s.closed ==> r == s.(logger := r.logger)
    ensures r.closed == (s.closed || op.CloseOp?)
  {
    match op
    case SetLogOp(f) => Set.SetLogState(s, f)
    case SetLanguageOp(lang, words) => Set.SetLanguageState(s, lang, words).state
    case CloseOp => Init.CloseState(s)
    case GetOp(_, _) => s
  }

  /** The state after a whole history; the invariant holds throughout. */
  function Run(s: StoreState, ops: seq<Op>): (r: StoreState)
    requires Inv(s)
    ensures Inv(r)
    ensures |r.signals| >= |s.signals|
    ensures s.closed ==> r.closed
    decreases |ops|
  {
    if ops == [] then s else Run(Step(s, ops[0]), ops[1..])
  }

  /** After `Close`, no history changes the language, the table or the signals again. */
  lemma {:induction false} ClosedIsFinal(s: StoreState, ops: seq<Op>)
    requires Inv(s) && s.closed
    ensures Run(s, ops).closed
    ensures Run(s, ops).lang == s.lang && Run(s, ops).words == map[]
    ensures Run(s, ops).signals == s.signals
    decreases |ops|
  {
    if ops != [] {
      ClosedIsFinal(Step(s, ops[0]), ops[1..]);
    }
  }

  /** A history without a successful change or a close installs no signal and trips none. */
  lemma {:induction false} QuietHistoryKeepsSignals(s: StoreState, ops: seq<Op>)
    requires Inv(s)
    requires forall k :: 0 <= k < |ops| ==> !ops[k].CloseOp? && !ops[k].SetLanguageOp?
    ensures Run(s, ops).signals == s.signals && Run(s, ops).closed == s.closed
    decreases |ops|
  {
    if ops != [] {
      QuietHistoryKeepsSignals(Step(s, ops[0]), ops[1..]);
    }
  }

  /**
   * A waiter that captured the current signal of an open store is
   * released after a history exactly when a new signal has been
   * installed (a language change) or the store has been closed.
   */
  lemma WaiterReleasedIffChangedOrClosed(s: StoreState, ops: seq<Op>)
    requires Inv(s) && !s.closed
    ensures var r := Run(s, ops);
      Update.Released(r, Update.BeginWait(s)) <==> (|r.signals| > |s.signals| || r.closed)
  {
  }

  /** A released waiter stays released whatever happens next. */
  lemma ReleasedStaysReleased(s: StoreState, ops: seq<Op>, i: nat)
    requires Inv(s) && Update.Released(s, i)
    ensures Update.Released(Run(s, ops), i)
  {
  }

  /** Once closed, every wait, whenever it begins, is released at once and reports a close. */
  lemma WaitAfterCloseReportsClose(s: StoreState, ops: seq<Op>)
    requires Inv(s) && s.closed
    ensures var r := Run(s, ops);
      && Update.Released(r, Update.BeginWait(r))
      && Update.Wait(r, Update.BeginWait(r)) == Update.EventClose
      && Update.WaitAndClose(r, Update.BeginWait(r))
  {
  }

  /**
   * A successful change releases the waiter that captured the previous
   * signal, which then reports a language change; a wait begun after it
   * blocks on the new signal.
   */
  lemma ChangeReleasesWaiter(s: StoreState, lang: string, words: Option<Words>)
    requires Inv(s) && Set.SetLanguageState(s, lang, words).err.None?
    ensures var r := Set.SetLanguageState(s, lang, words).state;
      && Update.Released(r, Update.BeginWait(s))
      && Update.Wait(r, Update.BeginWait(s)) == Update.EventLanguageChanged
      && !Update.WaitAndClose(r, Update.BeginWait(s))
      && !Update.Released(r, Update.BeginWait(r))
  {
  }

  /** Closing releases the waiter on the current signal, which then reports a close. */
  lemma CloseReleasesWaiter(s: StoreState)
    requires Inv(s)
    ensures var r := Init.CloseState(s);
      && Update.Released(r, Update.BeginWait(s))
      && Update.Wait(r, Update.BeginWait(s)) == Update.EventClose
      && Update.WaitAndClose(r, Update.BeginWait(s))
  {
  }
}
