/** Handlers and handler chains (jin.go). */
module Jin {
  import opened Lang
  import opened Errors

  /** What a scripted handler does, one step at a time, to the context it is given. */
  datatype Step =
    | Noop
    | CallNext                           // c.Next(): run the rest of the chain, then resume
    | AbortChain                         // c.Abort()
    | SetKey(key: string, value: Value)  // c.Set(key, value)
    | Raise(err: ErrorArg)               // c.Error(err)

  /** A `HandlerFunc`, given as the steps it performs. */
  datatype HandlerFunc = HandlerFunc(steps: seq<Step>)

  type HandlerChain = seq<HandlerFunc>

  /** `HandlerChain.Last`: the final handler of the chain, nil when the chain is empty. */
  function Last(c: HandlerChain): (r: Option<HandlerFunc>)
    ensures r.None? <==> c == []
    ensures r.Some? ==> r.value == c[|c| - 1]
  {
    if |c| > 0 then Some(c[|c| - 1]) else None
  }

  /** Appending a handler makes it the last one, whatever came before. */
  lemma LastOfAppend(c: HandlerChain, h: HandlerFunc)
    ensures Last(c + [h]) == Some(h)
  {
  }
}
