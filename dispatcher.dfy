/** The host framework's keyword dispatcher, as a recording stand-in. */
module Dispatcher {
  import opened Calls

  /**
   * Runs keywords by name. Its replies are given by `respond`; every call it
   * receives is appended to `trace`, so the order and number of dispatches
   * can be stated.
   */
  class BuiltIn<V> {
    const respond: Responder<V>
    var trace: seq<Call<V>>

    constructor (respond: Responder<V>)
      ensures this.respond == respond && trace == []
    {
      this.respond := respond;
      trace := [];
    }

    /** Dispatches one keyword call and records it. */
    method RunKeyword(name: V, args: seq<V>) returns (reply: Reply<V>)
      modifies this
      ensures trace == old(trace) + [Call(name, args)]
      ensures reply == respond(old(trace), Call(name, args))
    {
      reply := respond(trace, Call(name, args));
      trace := trace + [Call(name, args)];
    }
  }
}
