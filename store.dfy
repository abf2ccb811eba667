/**
 * The store object itself (`LanguageWizardObj`), with the fields the Go
 * struct has. Locking is not modelled: every method runs atomically, as
 * the mutex makes it. Each method's effect is stated as the matching
 * step on `Model()`, the value the object stands for.
 */
module LanguageWizard {
  import opened Options
  import opened Errors
  import opened State
  import Init
  import Set
  import Lookups = Get
  import Update

  /** One call of the logger callback: which logger got which message. */
  datatype LogCall = LogCall(logger: nat, message: string)

  class Store {
    var lang: string
    var words: Words
    var closed: bool
    var signals: seq<bool>
    var logger: nat
    /** Every message handed to a logger so far. */
    ghost var logTrace: seq<LogCall>

    function Model(): StoreState
      reads this
    {
      StoreState(lang, words, closed, signals, logger)
    }

    ghost predicate Valid()
      reads this
    {
      Inv(Model())
    }

    /** The part of `New` after its checks: fields set, fresh signal, no-op logger. */
    constructor Create(isoLanguage: string, copy: Words)
      requires Init.ValidateInput(isoLanguage, Some(copy)).None?
      ensures Valid() && Model() == Init.NewState(isoLanguage, Some(copy)).value
      ensures logTrace == []
    {
      lang := isoLanguage;
      words := copy;
      closed := false;
      signals := [false];
      logger := NoopLogger;
      logTrace := [];
    }

    /** `New`: a fresh open store on a copy of the words, or the first failing check. */
    static method New(isoLanguage: string, words: Option<Words>) returns (obj: Store?, err: Option<Error>)
      ensures Init.NewState(isoLanguage, words).Err? ==>
                obj == null && err == Some(Init.NewState(isoLanguage, words).error)
      ensures Init.NewState(isoLanguage, words).Ok? ==>
                && err.None? && obj != null && fresh(obj) && obj.Valid()
                && obj.Model() == Init.NewState(isoLanguage, words).value
                && obj.logTrace == []
    {
      if isoLanguage == "" {
        return null, Some(ErrNilIsoLang);
      }
      if words.None? || |words.value| == 0 {
        return null, Some(ErrNilWords);
      }
      var copy := CopyWords(words.value);
      obj := new Store.Create(isoLanguage, copy);
      err := None;
    }

    /** Closing the current channel; the precondition is Go's "close of closed channel" panic. */
    method TripCurrent()
      requires |signals| > 0 && !signals[|signals| - 1]
      modifies this`signals
      ensures signals == Trip(old(signals), |old(signals)| - 1)
    {
      signals := signals[|signals| - 1 := true];
    }

    /** `Close`: idempotent; closes the store for good. */
    method Close()
      requires Valid()
      modifies this
      ensures Valid() && Model() == Init.CloseState(old(Model()))
      ensures logTrace == old(logTrace)
    {
      if closed {
        return;
      }
      closed := true;
      TripCurrent();
      words := map[];
    }

    /** `SetLog`: ignores a nil callback. */
    method SetLog(f: Option<nat>)
      requires Valid()
      modifies this
      ensures Valid() && Model() == Set.SetLogState(old(Model()), f)
      ensures logTrace == old(logTrace)
    {
      if f.None? {
        return;
      }
      logger := f.value;
    }

    /** `SetLanguage`: checks, swap, trip the current signal, arm a new one. */
    method SetLanguage(isoLanguage: string, newWords: Option<Words>) returns (err: Option<Error>)
      requires Valid()
      modifies this
      ensures Valid()
      ensures Model() == Set.SetLanguageState(old(Model()), isoLanguage, newWords).state
      ensures err == Set.SetLanguageState(old(Model()), isoLanguage, newWords).err
      ensures logTrace == old(logTrace)
    {
      if isoLanguage == "" {
        return Some(ErrNilIsoLang);
      }
      if newWords.None? || |newWords.value| == 0 {
        return Some(ErrNilWords);
      }
      if closed {
        return Some(ErrClosed);
      }
      if isoLanguage == lang {
        return Some(ErrLangAlreadySet);
      }
      lang := isoLanguage;
      var copy := CopyWords(newWords.value);
      words := copy;
      TripCurrent();
      signals := signals + [false];
      err := None;
    }

    /** `CurrentLanguage`: never empty on a valid store. */
    method CurrentLanguage() returns (r: string)
      requires Valid()
      ensures r == lang && r != ""
    {
      r := lang;
    }

    /** `Words`: a copy with the table's content; the empty table once closed. */
    method Words() returns (m: Words)
      requires Valid()
      ensures m == words
      ensures closed ==> m == map[]
      ensures !closed ==> |m| > 0
    {
      m := CopyWords(words);
    }

    /** `Get`: the lookup, with the miss message handed to the current logger. */
    method Get(id: string, def: string) returns (r: string)
      modifies this`logTrace
      ensures r == Lookups.Lookup(words, id, def).value
      ensures logTrace == old(logTrace) +
        (if id != "" && id !in words then [LogCall(logger, Lookups.UndefPrefix + id)] else [])
    {
      if id == "" {
        return def;
      }
      if id in words {
        return words[id];
      }
      logTrace := logTrace + [LogCall(logger, Lookups.UndefPrefix + id)];
      r := def;
    }

    /** First half of `Wait`: capture the current signal. */
    method BeginWait() returns (ch: nat)
      requires Valid()
      ensures ch == |signals| - 1
      ensures Update.Released(Model(), ch) <==> closed
    {
      ch := |signals| - 1;
    }

    /** Second half of `Wait`, once the captured signal has fired. */
    method EndWait(ch: nat) returns (e: Update.EventType)
      requires Update.Released(Model(), ch)
      ensures e == Update.EventClose <==> closed
      ensures !closed ==> e == Update.EventLanguageChanged
    {
      if closed {
        return Update.EventClose;
      }
      e := Update.EventLanguageChanged;
    }

    /** `WaitAndClose` after the captured signal has fired. */
    method WaitAndClose(ch: nat) returns (b: bool)
      requires Update.Released(Model(), ch)
      ensures b <==> closed
    {
      var e := EndWait(ch);
      b := e == Update.EventClose;
    }
  }
}
