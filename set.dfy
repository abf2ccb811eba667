/** Replacing the logger and the language (set.go). */
module Set {
  import opened Options
  import opened Errors
  import opened State
  import Init

  /** `SetLog`: a nil callback is ignored; any other becomes the logger. */
  function SetLogState(s: StoreState, f: Option<nat>): (r: StoreState)
    ensures f.None? ==> r == s
    ensures f.Some? ==> r.logger == f.value
    ensures r.(logger := s.logger) == s
    ensures Inv(s) ==> Inv(r)
  {
    match f
    case None => s
    case Some(g) => s.(logger := g)
  }

  datatype SetOutcome = SetOutcome(state: StoreState, err: Option<Error>)

  /**
   * `SetLanguage`. The checks come in this order: empty language, nil or
   * empty words, closed store, unchanged language. A failure leaves the
   * store as it was. A success installs the language and a copy of the
   * words, trips the current signal and appends a fresh armed one.
   */
  function SetLanguageState(s: StoreState, lang: string, words: Option<Words>): (r: SetOutcome)
    requires Inv(s)
    ensures Inv(r.state)
    ensures lang == "" ==> r.err == Some(ErrNilIsoLang)
    ensures lang != "" && (words.None? || |words.value| == 0) ==> r.err == Some(ErrNilWords)
    ensures Init.ValidateInput(lang, words).None? && s.closed ==> r.err == Some(ErrClosed)
    ensures (Init.ValidateInput(lang, words).None? && !s.closed && lang == s.lang)
      ==> r.err == Some(ErrLangAlreadySet)
    ensures r.err.None? <==> Init.ValidateInput(lang, words).None? && !s.closed && lang != s.lang
    ensures r.err.Some? ==> r.state == s
    ensures r.err.None? ==> && r.state.lang == lang && r.state.lang != s.lang
                            && r.state.words == words.value
                            && r.state.closed == s.closed && r.state.logger == s.logger
    ensures r.err.None? ==> && |r.state.signals| == |s.signals| + 1
                            && r.state.signals[Current(s)]
                            && !r.state.signals[|s.signals|]
                            && forall j :: 0 <= j < Current(s) ==> r.state.signals[j] == s.signals[j]
  {
    match Init.ValidateInput(lang, words)
    case Some(e) => SetOutcome(s, Some(e))
    case None =>
      if s.closed then SetOutcome(s, Some(ErrClosed))
      else if lang == s.lang then SetOutcome(s, Some(ErrLangAlreadySet))
      else
        var tripped := Trip(s.signals, Current(s));
        SetOutcome(s.(lang := lang, words := words.value, signals := tripped + [false]), None)
  }
}
