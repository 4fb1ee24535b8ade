/** Values shared by the splitter, the executor and the dispatcher. */
module Calls {

  /** An optional value, used for a piped result that may be absent (Python's None). */
  datatype Option<+T> = None | Some(value: T)

  /** One keyword call: the keyword name and its ordered arguments. */
  datatype Call<V> = Call(name: V, args: seq<V>)

  /** What one dispatch of a keyword gives: its return value (None for Python's None) or a failure. */
  datatype Reply<V> = Returned(value: Option<V>) | Raised(cause: string)

  /**
   * The dispatcher's behaviour: the reply to a call, given every call dispatched
   * before it (so keywords with side effects are covered).
   */
  type Responder<!V> = (seq<Call<V>>, Call<V>) -> Reply<V>

  /** A call in which the separator token appears neither as name nor as argument. */
  predicate Avoids<V(==)>(c: Call<V>, sep: V) {
    c.name != sep && sep !in c.args
  }
}
