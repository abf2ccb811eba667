# language_wizard in Dafny

A model of `LanguageWizardObj`, an in-memory translation-table holder. It keeps:

- a current language code;
- a key-to-text word map;
- a `closed` flag;
- a logger callback;
- a "changed" channel that is closed to wake every waiter and then replaced by a fresh one.

The model has two layers.

- A pure layer works on the value `State.StoreState`. It has one module per Go file: `Init` (init.go), `Set` (set.go), `Get` (get.go) and `Update` (update.go), with the sentinel errors in `Errors` (errors.go). Each operation is a function whose contract gives its error order, its effect and the object invariant `State.Inv`.
- `LanguageWizard.Store` is a class with the Go struct's fields. Its methods do the same steps as the Go code, in place. Each method's `ensures` ties the new `Model()` to the pure step applied to `old(Model())`.

The three `for k, v := range` copy loops (init.go, set.go, get.go) are the one method `State.CopyWords`. It visits keys in no fixed order, as Go's range does.

Channels are modelled as `signals: seq<bool>`, one entry per channel ever made. An entry is `true` once that channel has been closed ("tripped"). The last entry is the current `changedCh`. A waiter keeps the index of the channel it captured.

Closing a closed channel panics in Go. Here that is the precondition of `State.Trip` and `Store.TripCurrent`. `Inv` says the current signal is armed exactly while the store is open, and every earlier signal is tripped. With that invariant, `Close` and `SetLanguage` are proved never to trip a signal twice.

`Lifecycle` composes the atomic steps into histories (the mutex serialises them). It proves four things:

- the invariant holds after any history;
- a closed store never changes again, apart from its logger;
- a waiter is released exactly by a successful change or a close;
- a wait begun after `Close` returns `EventClose` at once.

`Usage` replays the test scenarios against the class contracts.

The model follows the Go code, which signals with one channel per generation, closed and replaced. Each generation is the index of a `signals` entry, so the model reads equally as a condition variable with a generation counter.

## Model

| member | source | states |
|---|---|---|
| Errors.MessageIdentifiesError | errors.go:8-12 | the four sentinel errors carry pairwise distinct messages |
| State.Trip | init.go:52 | closing a channel requires it to be still open (Go panics otherwise); afterwards it is tripped and every other channel is as it was |
| State.CopyWords | init.go:31-35 | the range-loop copy of a word map has exactly the content of the original (also used for set.go:37-41 and get.go:15-18) |
| Init.ValidateInput | init.go:21-26 | an empty language gives ErrNilIsoLang even when the words are also missing; otherwise a nil or empty map gives ErrNilWords; the input is accepted exactly when the language is non-empty and the map non-empty (same checks at set.go:17-22) |
| Init.NewState | init.go:20-41 | New fails with exactly the first failing input check; on success the store holds the language and the words, is open, has one armed signal and the no-op logger, and satisfies the invariant |
| Init.CloseState | init.go:43-55 | Close on a closed store changes nothing; on an open one it sets closed, trips the current signal without adding one, empties the words, keeps language and logger, and keeps the invariant |
| Set.SetLogState | set.go:5-14 | a nil logger leaves the state unchanged; a non-nil one becomes the logger and nothing else changes; the invariant is kept |
| Set.SetLanguageState | set.go:16-47 | errors come in the order empty language, nil/empty words, closed, same language; every error leaves the state unchanged; success sets the new (different) language and the words, trips the previous signal, appends exactly one armed signal, keeps closed and logger, and keeps the invariant |
| Get.Lookup | get.go:23-38 | an empty key yields the default and logs nothing; a present key yields its text and logs nothing; an absent key yields the default and logs exactly one message, "undef: " followed by that key |
| Update.BeginWait | update.go:12-15 | a wait captures the current signal, which is already tripped exactly when the store is closed |
| Update.Wait | update.go:19-26 | once released, the event is EventClose exactly when the store is closed and EventLanguageChanged otherwise (so the two event codes of update.go:7-10 differ) |
| Update.WaitAndClose | update.go:29-31 | WaitAndClose is true exactly when the store is closed at wake-up, that is when Wait reports EventClose |
| LanguageWizard.Store.Create | init.go:28-38 | the object built by New holds the model given by NewState, satisfies the invariant and has logged nothing |
| LanguageWizard.Store.New | init.go:20-41 | returns a nil object and the first failing check's error, or a fresh valid object whose state is NewState's and no error |
| LanguageWizard.Store.TripCurrent | init.go:52 | closing changedCh needs it still open; only the current signal changes, to tripped |
| LanguageWizard.Store.Close | init.go:43-55 | the new state is CloseState of the old one; the invariant is kept; nothing is logged |
| LanguageWizard.Store.SetLog | set.go:5-14 | the new state is SetLogState of the old one |
| LanguageWizard.Store.SetLanguage | set.go:16-47 | the returned error and the new state are those of SetLanguageState; the invariant is kept (so the close at set.go:43 never panics) |
| LanguageWizard.Store.CurrentLanguage | get.go:5-9 | returns the stored language, which is never empty, and changes nothing |
| LanguageWizard.Store.Words | get.go:11-21 | returns a map equal in content to the table, empty after Close and non-empty while open; changes nothing |
| LanguageWizard.Store.Get | get.go:23-38 | returns Lookup's value and appends to the log trace one call of the current logger with "undef: "+id exactly on a miss with a non-empty key; the store's state is untouched |
| LanguageWizard.Store.BeginWait | update.go:13-15 | captures the index of the current signal; it is released at once exactly when the store is closed |
| LanguageWizard.Store.EndWait | update.go:19-26 | a released waiter gets EventClose exactly when the store is closed, EventLanguageChanged otherwise |
| LanguageWizard.Store.WaitAndClose | update.go:29-31 | a released waiter gets true exactly when the store is closed |
| Lifecycle.Step | set.go:16-47 | any single operation keeps the invariant, installs a new signal exactly on a successful SetLanguage, closes the store exactly on Close or if already closed, and on a closed store changes at most the logger |
| Lifecycle.Run | init.go:43-55 | after any history the invariant holds, no signal has disappeared and a closed store is still closed |
| Lifecycle.ClosedIsFinal | init.go:47-54 | after Close, no history changes closed, the language, the (empty) words or the signals |
| Lifecycle.QuietHistoryKeepsSignals | set.go:5-14 | a history of only SetLog and Get calls trips no signal, adds none and does not close the store |
| Lifecycle.WaiterReleasedIffChangedOrClosed | update.go:13-17 | a waiter that captured the current signal of an open store is released after a history exactly when a new signal was installed or the store was closed |
| Lifecycle.ReleasedStaysReleased | init.go:51-52 | a tripped signal stays tripped after any history, so a released waiter is never blocked again |
| Lifecycle.WaitAfterCloseReportsClose | update.go:13-24 | once closed, a wait begun at any later point is released at once and reports EventClose, and WaitAndClose is true |
| Lifecycle.ChangeReleasesWaiter | set.go:43-44 | a successful SetLanguage releases the waiter on the previous signal, which reports EventLanguageChanged, while a wait begun afterwards blocks |
| Lifecycle.CloseReleasesWaiter | init.go:51-52 | Close releases the waiter on the current signal, which reports EventClose and makes WaitAndClose true |

## Left out

- The `sync.RWMutex` and goroutine interleavings: every operation is atomic, as the lock makes it.
- Actual blocking in `Wait` (`<-ch`): the model reduces it to the predicate `Update.Released` on the captured signal. `Wait` is split into `BeginWait` and `EndWait`.
- The race in which a change and a close happen almost together, so that a waiter may see either event. The source leaves that outcome open.
- The logger as a Go closure: a logger is an opaque identity (`State.NoopLogger` is the default), and its effect is the ghost trace `logTrace` of the calls it receives.
- Map aliasing: Dafny maps are values. So the isolation that the defensive copies buy in Go (changing a returned or passed-in map never affects the store) holds by construction. The copy loops are still modelled, as `State.CopyWords`.
- The test files: `Usage` restates two of their scenarios as verified client code.
