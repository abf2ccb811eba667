/** Construction and closing of a store (init.go). */
module Init {
  import opened Options
  import opened Errors
  import opened State

  /**
   * The input checks shared by `New` and `SetLanguage`: the language is
   * checked before the words, and a nil map fails like an empty one.
   */
  function ValidateInput(lang: string, words: Option<Words>): (r: Option<Error>)
    ensures lang == "" ==> r == Some(ErrNilIsoLang)
    ensures lang != "" && (words.None? || |words.value| == 0) ==> r == Some(ErrNilWords)
    ensures r.None? <==> lang != "" && words.Some? && |words.value| > 0
  {
    if lang == "" then Some(ErrNilIsoLang)
    else if words.None? || |words.value| == 0 then Some(ErrNilWords)
    else None
  }

  /**
   * `New`: an open store on a copy of the words, one armed signal and the
   * no-op logger; the first failing input check otherwise.
   */
  function NewState(lang: string, words: Option<Words>): (r: Result<StoreState>)
    ensures r.Err? <==> ValidateInput(lang, words).Some?
    ensures r.Err? ==> r.error == ValidateInput(lang, words).value
    ensures r.Ok? ==> Inv(r.value)
    ensures r.Ok? ==> r.value.lang == lang && r.value.words == words.value && !r.value.closed
    ensures r.Ok? ==> r.value.signals == [false] && r.value.logger == NoopLogger
  {
    match ValidateInput(lang, words)
    case Some(e) => Err(e)
    case None => Ok(StoreState(lang, words.value, false, [false], NoopLogger))
  }

  /**
   * `Close`: a no-op on a closed store. On an open one it marks the store
   * closed, trips the current signal (which the invariant says is armed)
   * without installing a new one, and empties the table.
   */
  function CloseState(s: StoreState): (r: StoreState)
    requires Inv(s)
    ensures Inv(r)
    ensures s.closed ==> r == s
    ensures r.closed && r.words == map[]
    ensures r.lang == s.lang && r.logger == s.logger
    ensures |r.signals| == |s.signals| && r.signals[Current(s)]
    ensures forall j :: 0 <= j < Current(s) ==> r.signals[j] == s.signals[j]
  {
    if s.closed then s
    else s.(closed := true, signals := Trip(s.signals, Current(s)), words := map[])
  }
}
