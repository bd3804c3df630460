/**
 The event delivery pipeline: the onion dispatcher with its shared `index` and `currentEvent`,
 the retry and dead-letter layers, the idempotent settlement of an event context, and the bus's
 delivery callback with its auto-ack. This module holds the data model and the transition functions;
 `Delivery` is the imperative code proved against them.

 Everything outside the pipeline answers one reply per question asked: `Pipeline.world` for broker callbacks,
 dead-letter publishes and what a middleware awaits, `Pipeline.signal` for looks at the abort signal and back-off
 waits. Lemmas quantify over every `world`, `signal` and handler.
 */
module Pipelines {

  import opened Options

  datatype Event = Event(topic: string, id: string, payload: seq<bv8>, attempt: int)

  /** A thrown value, with the two brands that the retry layer looks at. */
  datatype Error =
    | NextCalledTwice
    | Undefined
    | Failure(name: string, nonRetryable: bool, retryable: bool)
  {
    predicate IsNonRetryable() { Failure? && nonRetryable }

    predicate IsRetryable() { Failure? && retryable }
  }

  /** How a promise settled. */
  datatype Reply = Resolved | Rejected(error: Error)

  datatype Settlement = Ack | Nack(requeue: bool)

  /** What a custom middleware does next, given the replies it has seen so far. */
  datatype Action =
    | Return
    | Throw(error: Error)
    | CallNext(updated: Option<Event>)
    | Settle(call: Settlement)
    | AwaitWorld

  /**
   An arbitrary sequential middleware: a strategy over its own history of replies. `bound` caps the number of
   awaits of one invocation; a finite run always has such a cap, so quantifying over `bound` loses no run.
   */
  datatype Middleware = Middleware(strategy: (Event, seq<Reply>) -> Action, bound: nat)

  datatype Backoff = Exponential | Linear | Fixed

  datatype RetryOptions = RetryOptions(
    maxRetries: int, backoff: Backoff, initialDelay: real, maxDelay: real, multiplier: real,
    retryableErrors: Option<Error -> bool>)

  datatype Serialized = Text(text: string) | SerializerThrew(error: Error)

  /** What the options fix once per layer: the retry limit, the wait after each attempt, the predicate. */
  datatype RetryPolicy = RetryPolicy(maxRetries: int, delay: nat -> real, retryableErrors: Option<Error -> bool>)

  datatype DlqOptions = DlqOptions(topic: string, serialize: Error -> Serialized)

  datatype Layer =
    | Custom(middleware: Middleware)
    | Retry(policy: RetryPolicy)
    | Dlq(dlq: DlqOptions)

  /** One run of the event handler: its context calls in order, then how it ends. */
  datatype Script = Script(calls: seq<Settlement>, result: Reply)

  datatype Pipeline = Pipeline(
    layers: seq<Layer>,
    handler: (nat, Event) -> Script,  // indexed by how often the handler was entered before
    world: nat -> Reply,              // broker and adapter, indexed by how many questions were asked before
    signal: nat -> Reply)             // the event's abort signal and the waits under it, indexed likewise

  datatype DeadLetter = DeadLetter(
    topic: string, payload: seq<bv8>, originalTopic: string, originalId: string, error: string, attempt: int)

  datatype Entry =
    | LayerEntered(layer: nat, event: Event)
    | HandlerEntered(event: Event)
    | HandlerLeft(result: Reply)
    | ContextCall(call: Settlement)
    | BrokerCall(call: Settlement, reply: Reply)
    | Published(letter: DeadLetter, reply: Reply)
    | Waited(delay: real)

  /** Shared state of one delivery, apart from the dispatcher's `index`. */
  datatype Core = Core(event: Event, settled: bool, clock: nat, log: seq<Entry>)
  {
    function Log(e: Entry): Core { this.(log := log + [e]) }

    function Ask(): Core { this.(clock := clock + 1) }
  }

  datatype State = State(index: int, core: Core)

  function Fresh(event: Event): Core { Core(event, false, 0, []) }

  // ---------- observations of a log ----------

  datatype Summary = Summary(
    runs: seq<Event>,               // the events the handler was entered with
    successes: nat,                 // how many of these runs resolved
    contextCalls: seq<Settlement>,  // calls on the event context
    brokerCalls: seq<Entry>,        // settlements that reached the broker
    publishes: seq<Entry>,          // dead-letter publishes
    totalWait: real)                // back-off waits, in milliseconds
  {
    function Add(e: Entry): Summary
    {
      match e
      case LayerEntered(_, _) => this
      case HandlerEntered(event) => this.(runs := runs + [event])
      case HandlerLeft(result) => if result.Resolved? then this.(successes := successes + 1) else this
      case ContextCall(call) => this.(contextCalls := contextCalls + [call])
      case BrokerCall(_, _) => this.(brokerCalls := brokerCalls + [e])
      case Published(_, _) => this.(publishes := publishes + [e])
      case Waited(delay) => this.(totalWait := totalWait + delay)
    }
  }

  const EMPTY_SUMMARY := Summary([], 0, [], [], [], 0.0)

  function Summarize(log: seq<Entry>): Summary
  {
    if log == [] then EMPTY_SUMMARY
    else Summarize(log[..|log| - 1]).Add(log[|log| - 1])
  }

  lemma SummarizeEmpty()
    ensures Summarize([]) == EMPTY_SUMMARY
  {}

  lemma SummarizeStep(log: seq<Entry>, e: Entry)
    ensures Summarize(log + [e]) == Summarize(log).Add(e)
  {
    assert (log + [e])[..|log + [e]| - 1] == log;
  }

  // ---------- the event context ----------

  /** `ctx.ack()` / `ctx.nack()`: only the first call of a delivery reaches the broker. */
  function SettleContext(p: Pipeline, call: Settlement, c: Core): (Reply, Core)
  {
    var called := c.Log(ContextCall(call));
    if c.settled then (Resolved, called) else
    var reply := p.world(c.clock);
    (reply, called.(settled := true).Ask().Log(BrokerCall(call, reply)))
  }

  function SettleAll(p: Pipeline, calls: seq<Settlement>, c: Core): Core
  {
    if calls == [] then c else SettleAll(p, calls[1..], SettleContext(p, calls[0], c).1)
  }

  /** The innermost function: the handler, run on the current event. */
  function RunHandler(p: Pipeline, c: Core): (Reply, Core)
  {
    var script := p.handler(|Summarize(c.log).runs|, c.event);
    (script.result, SettleAll(p, script.calls, c.Log(HandlerEntered(c.event))).Log(HandlerLeft(script.result)))
  }

  function Updated(c: Core, updated: Option<Event>): Core
  {
    if updated.Some? then c.(event := updated.value) else c
  }

  // ---------- retry and dead-letter decisions ----------

  function Power(base: real, exponent: nat): real
  {
    if exponent == 0 then 1.0 else base * Power(base, exponent - 1)
  }

  function Min(a: real, b: real): real { if a < b then a else b }

  function CalculateDelay(o: RetryOptions, attempt: nat): (delay: real)
    ensures delay <= o.maxDelay
  {
    var delay := match o.backoff
      case Exponential => o.initialDelay * Power(o.multiplier, if attempt == 0 then 0 else attempt - 1)
      case Linear => o.initialDelay * attempt as real
      case Fixed => o.initialDelay;
    Min(delay, o.maxDelay)
  }

  function Policy(o: RetryOptions): RetryPolicy
  {
    RetryPolicy(o.maxRetries, (attempt: nat) => CalculateDelay(o, attempt), o.retryableErrors)
  }

  /** Brands first (non-retryable wins), then the optional predicate, else retry. */
  predicate ShouldRetry(o: RetryPolicy, error: Error)
  {
    && !error.IsNonRetryable()
    && (error.IsRetryable() || o.retryableErrors.None? || o.retryableErrors.value(error))
  }

  /** The event the handler sees on `attempt` (counted from 1) of a retry layer entered with `event`. */
  function AttemptEvent(event: Event, attempt: nat): Event
    requires attempt >= 1
  {
    event.(attempt := event.attempt + attempt - 1)
  }

  function RetryUpdate(event: Event, attempt: nat): Option<Event>
    requires attempt >= 1
  {
    if attempt > 1 then Some(AttemptEvent(event, attempt)) else None
  }

  /** What follows a rejected attempt: give up with an error, or wait and go round again. */
  function AfterRejection(p: Pipeline, o: RetryPolicy, attempt: nat, error: Error, c: Core): (Option<Error>, Core)
    requires attempt >= 1
  {
    if !ShouldRetry(o, error) || attempt > o.maxRetries then (Some(error), c) else
    var looked := c.Ask();
    if p.signal(c.clock).Rejected? then (Some(error), looked) else
    var waited := looked.Ask().Log(Waited(o.delay(attempt)));
    match p.signal(looked.clock)
    case Rejected(reason) => (Some(reason), waited)
    case Resolved =>
      // the next turn of the loop looks at the abort signal once more
      match p.signal(waited.clock)
      case Rejected(reason) => (Some(reason), waited.Ask())
      case Resolved => (None, waited.Ask())
  }

  function Letter(d: DlqOptions, event: Event, text: string): DeadLetter
  {
    DeadLetter(d.topic, event.payload, event.topic, event.id, text, event.attempt)
  }

  /** The dead-letter layer's reaction to a failure of the layers inside it. */
  function DeadLetterFailure(p: Pipeline, d: DlqOptions, event: Event, error: Error, c: Core): (Reply, Core)
  {
    if event.topic == d.topic then (Rejected(error), c) else
    match d.serialize(error)
    case SerializerThrew(thrown) => (Rejected(thrown), c)
    case Text(text) =>
      var reply := p.world(c.clock);
      var published := c.Ask().Log(Published(Letter(d, event, text), reply));
      if reply.Rejected? then SettleContext(p, Nack(false), published) else
      var (acked, after) := SettleContext(p, Ack, published);
      if acked.Rejected? then SettleContext(p, Nack(false), after) else (Resolved, after)
  }

  // ---------- the dispatcher, with its shared index ----------

  function Dispatch(p: Pipeline, i: nat, s: State): (Reply, State)
    requires i <= |p.layers|
    decreases |p.layers| - i, 3, 0
  {
    if i <= s.index then (Rejected(NextCalledTwice), s) else
    var (reply, after) :=
      if i == |p.layers| then
        var (r, c) := RunHandler(p, s.core); (r, State(i, c))
      else
        RunLayer(p, i, State(i, s.core.Log(LayerEntered(i, s.core.event))));
    (reply, if reply.Rejected? then after.(index := i - 1) else after)
  }

  /** `next(updated)` as called from layer `i`. */
  function Next(p: Pipeline, i: nat, updated: Option<Event>, s: State): (Reply, State)
    requires i < |p.layers|
    decreases |p.layers| - i, 0, 0
  {
    Dispatch(p, i + 1, s.(core := Updated(s.core, updated)))
  }

  function RunLayer(p: Pipeline, i: nat, s: State): (Reply, State)
    requires i < |p.layers|
    decreases |p.layers| - i, 2, 0
  {
    match p.layers[i]
    case Custom(m) => RunCustom(p, i, m, s.core.event, [], s)
    case Retry(o) => RunRetry(p, i, o, s.core.event, 1, Undefined, s)
    case Dlq(d) => RunDlq(p, i, d, s.core.event, s)
  }

  function RunCustom(p: Pipeline, i: nat, m: Middleware, event: Event, seen: seq<Reply>, s: State): (Reply, State)
    requires i < |p.layers|
    decreases |p.layers| - i, 1, if |seen| < m.bound then m.bound - |seen| else 0
  {
    if |seen| >= m.bound then (Resolved, s) else
    match m.strategy(event, seen)
    case Return => (Resolved, s)
    case Throw(error) => (Rejected(error), s)
    case CallNext(updated) =>
      var (reply, after) := Next(p, i, updated, s);
      RunCustom(p, i, m, event, seen + [reply], after)
    case Settle(call) =>
      var (reply, after) := SettleContext(p, call, s.core);
      RunCustom(p, i, m, event, seen + [reply], s.(core := after))
    case AwaitWorld =>
      RunCustom(p, i, m, event, seen + [p.world(s.core.clock)], s.(core := s.core.Ask()))
  }

  /** The retry loop from `attempt` on; `last` is the error of the attempt before it. */
  function RunRetry(p: Pipeline, i: nat, o: RetryPolicy, event: Event, attempt: nat, last: Error, s: State):
    (Reply, State)
    requires i < |p.layers| && attempt >= 1
    decreases |p.layers| - i, 1, if attempt <= o.maxRetries + 1 then o.maxRetries + 2 - attempt else 0
  {
    if attempt > o.maxRetries + 1 then (Rejected(last), s) else
    var (reply, after) := Next(p, i, RetryUpdate(event, attempt), s);
    if reply.Resolved? then (Resolved, after) else
    var (failed, core) := AfterRejection(p, o, attempt, reply.error, after.core);
    if failed.Some? then (Rejected(failed.value), after.(core := core))
    else RunRetry(p, i, o, event, attempt + 1, reply.error, after.(core := core))
  }

  function RunDlq(p: Pipeline, i: nat, d: DlqOptions, event: Event, s: State): (Reply, State)
    requires i < |p.layers|
    decreases |p.layers| - i, 1, 0
  {
    var (reply, after) := Next(p, i, None, s);
    if reply.Resolved? then (Resolved, after) else
    var (r, core) := DeadLetterFailure(p, d, event, reply.error, after.core);
    (r, after.(core := core))
  }

  /** The composed handler: with no layers at all the handler is called directly. */
  function Composed(p: Pipeline, c: Core): (Reply, Core)
  {
    if p.layers == [] then RunHandler(p, c) else
    var (reply, s) := Dispatch(p, 0, State(-1, c));
    (reply, s.core)
  }

  // ---------- the bus's delivery callback ----------

  datatype Route = Unrouted | Routed

  /**
   The callback given to the adapter: unrouted events are acked, events arriving during a drain are put back,
   and a routed event that nobody settled is auto-acked past the context when the pipeline returned normally.
   */
  function Deliver(p: Pipeline, route: Route, draining: bool, event: Event): (Reply, Core)
  {
    var c := Fresh(event);
    if route.Unrouted? then
      (p.world(0), c.Ask().Log(BrokerCall(Ack, p.world(0))))
    else if draining then
      (p.world(0), c.Ask().Log(BrokerCall(Nack(true), p.world(0))))
    else
      var (reply, after) := Composed(p, c);
      if reply.Resolved? && !after.settled
      then (reply, after.Ask().Log(BrokerCall(Ack, p.world(after.clock))))
      else (reply, after)
  }
}
