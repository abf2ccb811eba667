/** Lookups (get.go). */
module Get {
  import opened Options
  import opened State

  /** Prefix of the message sent to the logger on a missed lookup. */
  const UndefPrefix: string := "undef: "

  /** What a lookup returns, and the message it sends to the logger, if any. */
  datatype LookupResult = LookupResult(value: string, logged: Option<string>)

  /**
   * `Get(id, def)`: the empty key yields the default without a lookup; a
   * present key yields its text; an absent key yields the default and
   * sends one message naming the key to the logger.
   */
  function Lookup(words: Words, id: string, def: string): (r: LookupResult)
    ensures id == "" ==> r.value == def
    ensures id != "" && id in words ==> r.value == words[id]
    ensures id != "" && id !in words ==> r.value == def
    ensures r.logged.Some? <==> id != "" && id !in words
    ensures r.logged.Some? ==> && |r.logged.value| == |UndefPrefix| + |id|
                               && r.logged.value[..|UndefPrefix|] == UndefPrefix
                               && r.logged.value[|UndefPrefix|..] == id
  {
    if id == "" then LookupResult(def, None)
    else if id in words then LookupResult(words[id], None)
    else LookupResult(def, Some(UndefPrefix + id))
  }
}
