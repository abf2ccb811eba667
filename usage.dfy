/**
 * Clients of `Store` that rely on its contracts alone: the life of a
 * store from creation through a language change to close.
 */
module Usage {
  import opened Options
  import opened Errors
  import opened LanguageWizard
  import Update

  method TranslateThenClose()
  {
    var obj, err := Store.New("en", Some(map["hi" := "Hello"]));
    assert obj != null && err.None?;
    var lang := obj.CurrentLanguage();
    assert lang == "en";
    var hello := obj.Get("hi", "x");
    assert hello == "Hello";

    var waiter := obj.BeginWait();
    assert !Update.Released(obj.Model(), waiter);
    var again := obj.SetLanguage("en", Some(map["hi" := "Hello"]));
    assert again == Some(ErrLangAlreadySet);
    var changed := obj.SetLanguage("fr", Some(map["hi" := "Bonjour"]));
    assert changed.None?;
    assert Update.Released(obj.Model(), waiter);
    var ev := obj.EndWait(waiter);
    assert ev == Update.EventLanguageChanged;
    var bonjour := obj.Get("hi", "x");
    assert bonjour == "Bonjour";

    var closeWaiter := obj.BeginWait();
    obj.Close();
    assert Update.Released(obj.Model(), closeWaiter);
    var closing := obj.WaitAndClose(closeWaiter);
    assert closing;
    var words := obj.Words();
    assert words == map[];
    var late := obj.BeginWait();
    var lateEv := obj.EndWait(late);
    assert lateEv == Update.EventClose;
    var refused := obj.SetLanguage("de", Some(map["hi" := "Hallo"]));
    assert refused == Some(ErrClosed);
    obj.Close();
    assert obj.closed && obj.lang == "fr";
  }

  method MissedLookupIsLogged()
  {
    var obj, _ := Store.New("en", Some(map["hi" := "Hello"]));
    obj.SetLog(Some(7));
    var before := |obj.logTrace|;
    var d := obj.Get("", "DEF");
    assert d == "DEF" && |obj.logTrace| == before;
    assert "unknown" !in obj.words && obj.logger == 7;
    var u := obj.Get("unknown", "DEF");
    assert u == "DEF";
    assert |obj.logTrace| == before + 1 && obj.logTrace[before].logger == 7;
  }
}
