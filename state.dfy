/**
 * The state of one translation store, as a value, together with the
 * invariant every operation keeps.
 *
 * The Go object holds one channel `changedCh` that is closed to wake
 * waiters and then replaced. Here every channel ever installed is an
 * entry of `signals`: `true` once it has been closed ("tripped"), and
 * the last entry is the current one. A waiter remembers the index of
 * the channel it captured.
 */
module State {
  /** A translation table: key to translated text. */
  type Words = map<string, string>

  /** Identity of the logger callback; `NoopLogger` is the do-nothing default. */
  const NoopLogger: nat := 0

  datatype StoreState = StoreState(
    lang: string,
    words: Words,
    closed: bool,
    signals: seq<bool>,
    logger: nat)

  /**
   * The object invariant. The current signal is armed exactly while the
   * store is open, and every earlier signal has been tripped; an open
   * store holds a non-empty table, a closed one the empty table.
   */
  predicate Inv(s: StoreState)
  {
    && s.lang != ""
    && |s.signals| > 0
    && (s.signals[|s.signals| - 1] <==> s.closed)
    && (forall i :: 0 <= i < |s.signals| - 1 ==> s.signals[i])
    && (s.closed ==> s.words == map[])
    && (!s.closed ==> |s.words| > 0)
  }

  /** Index of the current signal. */
  function Current(s: StoreState): (i: nat)
    requires |s.signals| > 0
    ensures i < |s.signals|
  {
    |s.signals| - 1
  }

  /**
   * Closing channel `i`. Go panics when a channel is closed twice, so
   * the signal must still be armed.
   */
  function Trip(signals: seq<bool>, i: nat): (r: seq<bool>)
    requires i < |signals| && !signals[i]
    ensures |r| == |signals| && r[i]
    ensures forall j :: 0 <= j < |signals| && j != i ==> r[j] == signals[j]
  {
    signals[i := true]
  }

  /**
   * The defensive copy `for k, v := range words { copy[k] = v }`, visiting
   * the keys in no particular order.
   */
  method CopyWords(m: Words) returns (c: Words)
    ensures c == m
  {
    c := map[];
    var todo := m.Keys;
    while todo != {}
      invariant todo <= m.Keys
      invariant c.Keys == m.Keys - todo
      invariant forall k :: k in c ==> c[k] == m[k]
      decreases todo
    {
      var k :| k in todo;
      c := c[k := m[k]];
      todo := todo - {k};
    }
  }
}
