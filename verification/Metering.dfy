/** Model usage of a node that may ask twice: everything received is counted. */
module Metering {
  import opened Prelude

  /** A generation: a response, a complete response that breaks its schema, or nothing. */
  datatype Attempt<+T> =
    | Received(value: T, tokens: Option<nat>)
    | SchemaError(correctable: bool, tokens: Option<nat>)
    | Lost

  /** What ends the node at once: nothing received, or a schema error that is not corrected. */
  predicate Raises<T>(a: Attempt<T>, last: bool) {
    a.Lost? || (a.SchemaError? && (last || !a.correctable))
  }

  datatype Meter = Meter(calls: nat, tokens: nat)

  function TokensOf(t: Option<nat>): nat {
    if t.Some? then t.value else 0
  }

  function Counted<T>(m: Meter, a: Attempt<T>): Meter {
    if a.Lost? then m else Meter(m.calls + 1, m.tokens + TokensOf(a.tokens))
  }

  function CallsOf<T>(attempts: seq<Attempt<T>>): nat {
    if attempts == [] then 0
    else CallsOf(attempts[..|attempts| - 1]) + if attempts[|attempts| - 1].Lost? then 0 else 1
  }

  function TokensUsed<T>(attempts: seq<Attempt<T>>): nat {
    if attempts == [] then 0
    else
      var last := attempts[|attempts| - 1];
      TokensUsed(attempts[..|attempts| - 1]) + if last.Lost? then 0 else TokensOf(last.tokens)
  }

  /** The usage before, plus all that was received since. */
  function Metered<T>(start: Meter, attempts: seq<Attempt<T>>): Meter {
    Meter(start.calls + CallsOf(attempts), start.tokens + TokensUsed(attempts))
  }

  lemma OneMoreAttempt<T>(start: Meter, attempts: seq<Attempt<T>>, n: nat)
    requires n < |attempts|
    ensures Metered(start, attempts[..n + 1]) == Counted(Metered(start, attempts[..n]), attempts[n])
  {
    assert attempts[..n + 1][..n] == attempts[..n];
  }
}
