/** The queue every ring is meant to be: what a step may do to it, and what a run adds up to. */
module Fifo {
  import opened RingLayout

  /** The visible effect of one atomic step, by thread `who`. */
  datatype Event =
    | Internal
    | Push(who: nat, pushed: Message)
    | Pop(who: nat, popped: Message)

  predicate FifoStep(q: seq<Message>, e: Event, q': seq<Message>) {
    match e
    case Internal => q' == q
    case Push(_, m) => q' == q + [m]
    case Pop(_, m) => q == [m] + q'
  }

  function Pushes(es: seq<Event>): seq<Message> {
    if es == [] then []
    else Pushes(es[..|es| - 1]) + (if es[|es| - 1].Push? then [es[|es| - 1].pushed] else [])
  }

  function Pops(es: seq<Event>): seq<Message> {
    if es == [] then []
    else Pops(es[..|es| - 1]) + (if es[|es| - 1].Pop? then [es[|es| - 1].popped] else [])
  }

  /** Conservation, one step on: everything pushed was popped, in order, or is still queued. */
  lemma StepConserves(es: seq<Event>, q: seq<Message>, e: Event, q': seq<Message>)
    requires Pushes(es) == Pops(es) + q && FifoStep(q, e, q')
    ensures Pushes(es + [e]) == Pops(es + [e]) + q'
  {}
}
