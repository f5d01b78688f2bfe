/**
 * `PwEvent`: a list of handlers that `listen` appends to and `fireAsync` calls, each
 * once, with one payload. Handlers are opaque values; a call is recorded as the
 * position of the handler in the list and the payload it received, in the order
 * `fireAsync` starts the calls.
 */
module PwEvents {
  import opened Wrappers

  /** One handler call: which registered handler, with which payload. */
  datatype Invocation<T> = Invocation(handler: nat, payload: T)

  /** The calls one `fireAsync(x)` makes over `n` registered handlers. */
  function Deliveries<T>(n: nat, x: T): (r: seq<Invocation<T>>)
    ensures |r| == n
    ensures forall i :: 0 <= i < n ==> r[i].handler == i && r[i].payload == x
  {
    if n == 0 then [] else Deliveries(n - 1, x) + [Invocation(n - 1, x)]
  }

  /** How many of the calls go to handler `h`. */
  function CallsTo<T>(calls: seq<Invocation<T>>, h: nat): nat {
    if calls == [] then 0
    else CallsTo(calls[..|calls| - 1], h) + (if calls[|calls| - 1].handler == h then 1 else 0)
  }

  /** `fireAsync(x)` calls every registered handler exactly once, and no other. */
  lemma {:induction false} DeliveriesOnce<T>(n: nat, x: T, h: nat)
    ensures CallsTo(Deliveries(n, x), h) == if h < n then 1 else 0
  {
    if n > 0 {
      var d := Deliveries(n, x);
      assert d[..|d| - 1] == Deliveries(n - 1, x);
      DeliveriesOnce(n - 1, x, h);
    }
  }

  class PwEvent<H, T> {
    /** The registered handlers, in registration order. */
    var handlers: seq<H>
    /** Every handler call made so far. */
    var calls: seq<Invocation<T>>

    /** `new PwEvent()` has no handler, `new PwEvent(h)` has `h`. */
    constructor(handler: Option<H>)
      ensures handlers == (if handler.Some? then [handler.value] else [])
      ensures calls == []
    {
      handlers := [];
      calls := [];
      if handler.Some? {
        handlers := [handler.value];
      }
    }

    /** `listen`: appends the handler, also when it is already registered. */
    method Listen(handler: H)
      modifies this
      ensures handlers == old(handlers) + [handler]
      ensures calls == old(calls)
    {
      handlers := handlers + [handler];
    }

    /** `fireAsync`: calls each handler in turn with the payload; the handler list does
        not change. */
    method FireAsync(x: T)
      modifies this
      ensures handlers == old(handlers)
      ensures calls == old(calls) + Deliveries(|handlers|, x)
    {
      var i := 0;
      while i < |handlers|
        invariant 0 <= i <= |handlers|
        invariant handlers == old(handlers)
        invariant calls == old(calls) + Deliveries(i, x)
      {
        calls := calls + [Invocation(i, x)];
        i := i + 1;
      }
    }
  }
}
