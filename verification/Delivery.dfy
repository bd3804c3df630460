/**
 One delivery as the code runs it: closure variables reassigned across nested calls, a counted retry loop, a
 try/catch chain. Every method is proved to compute the transition function of `Pipelines` of the same name.
 */
module Deliveries {
  import opened Options
  import opened P = Pipelines

  class Delivery {
    const p: Pipeline
    var index: int              // the dispatcher's shared position
    var currentEvent: Event     // the dispatcher's mutable event reference
    var contextSettled: bool    // the flag of the event context
    var busSettled: bool        // the flag the bus looks at before an auto-ack
    var clock: nat              // questions asked of the outside world so far
    var log: seq<Entry>

    /** Both settlement flags are set in the same synchronous stretch. */
    predicate Valid() reads this { busSettled == contextSettled }

    function Core(): Core reads this { P.Core(currentEvent, contextSettled, clock, log) }

    function State(): State reads this { P.State(index, Core()) }

    constructor (p: Pipeline, event: Event)
      ensures this.p == p && Valid() && State() == P.State(-1, Fresh(event))
    {
      this.p := p;
      index, currentEvent := -1, event;
      contextSettled, busSettled, clock, log := false, false, 0, [];
    }

    method AskWorld() returns (reply: Reply)
      modifies this`clock
      ensures reply == p.world(old(clock)) && clock == old(clock) + 1
    {
      reply := p.world(clock);
      clock := clock + 1;
    }

    method AskSignal() returns (reply: Reply)
      modifies this`clock
      ensures reply == p.signal(old(clock)) && clock == old(clock) + 1
    {
      reply := p.signal(clock);
      clock := clock + 1;
    }

    /** `ctx.ack` and `ctx.nack`: a no-op once the flag is set; the flag is set before the broker answers. */
    method SettleContext(call: Settlement) returns (reply: Reply)
      requires Valid()
      modifies this
      ensures Valid() && index == old(index)
      ensures (reply, Core()) == P.SettleContext(p, call, old(Core()))
    {
      log := log + [ContextCall(call)];
      if contextSettled { return Resolved; }
      contextSettled := true;
      busSettled := true;
      reply := AskWorld();
      log := log + [BrokerCall(call, reply)];
    }

    method RunHandler() returns (reply: Reply)
      requires Valid()
      modifies this
      ensures Valid() && index == old(index)
      ensures (reply, Core()) == P.RunHandler(p, old(Core()))
    {
      var script := p.handler(|Summarize(log).runs|, currentEvent);
      log := log + [HandlerEntered(currentEvent)];
      ghost var start := Core();
      var k := 0;
      while k < |script.calls|
        invariant 0 <= k <= |script.calls| && Valid() && index == old(index)
        invariant SettleAll(p, script.calls, start) == SettleAll(p, script.calls[k..], Core())
      {
        assert script.calls[k..][0] == script.calls[k] && script.calls[k..][1..] == script.calls[k + 1..];
        var _ := SettleContext(script.calls[k]);
        k := k + 1;
      }
      log := log + [HandlerLeft(script.result)];
      reply := script.result;
    }

    method Dispatch(i: nat) returns (reply: Reply)
      requires Valid() && i <= |p.layers|
      modifies this
      ensures Valid() && (reply, State()) == P.Dispatch(p, i, old(State()))
      decreases |p.layers| - i, 3, 0
    {
      if i <= index { return Rejected(NextCalledTwice); }
      index := i;
      if i == |p.layers| {
        reply := RunHandler();
      } else {
        log := log + [LayerEntered(i, currentEvent)];
        match p.layers[i]
        case Custom(m) => reply := RunCustom(i, m);
        case Retry(o) => reply := RunRetry(i, o);
        case Dlq(d) => reply := RunDlq(i, d);
      }
      if reply.Rejected? { index := i - 1; }
    }

    method Next(i: nat, updated: Option<Event>) returns (reply: Reply)
      requires Valid() && i < |p.layers|
      modifies this
      ensures Valid() && (reply, State()) == P.Next(p, i, updated, old(State()))
      decreases |p.layers| - i, 0, 0
    {
      if updated.Some? { currentEvent := updated.value; }
      reply := Dispatch(i + 1);
    }

    method RunCustom(i: nat, m: Middleware) returns (reply: Reply)
      requires Valid() && i < |p.layers|
      modifies this
      ensures Valid() && (reply, State()) == P.RunCustom(p, i, m, old(currentEvent), [], old(State()))
      decreases |p.layers| - i, 1, 0
    {
      var event := currentEvent;
      var seen: seq<Reply> := [];
      while |seen| < m.bound
        invariant Valid()
        invariant P.RunCustom(p, i, m, event, seen, State()) == P.RunCustom(p, i, m, event, [], old(State()))
        decreases m.bound - |seen|
      {
        var r;
        match m.strategy(event, seen) {
          case Return => return Resolved;
          case Throw(error) => return Rejected(error);
          case CallNext(updated) => r := Next(i, updated);
          case Settle(call) => r := SettleContext(call);
          case AwaitWorld => r := AskWorld();
        }
        seen := seen + [r];
      }
      return Resolved;
    }

    method RunRetry(i: nat, o: RetryPolicy) returns (reply: Reply)
      requires Valid() && i < |p.layers|
      modifies this
      ensures Valid() && (reply, State()) == P.RunRetry(p, i, o, old(currentEvent), 1, Undefined, old(State()))
      decreases |p.layers| - i, 1, 0
    {
      hide Summarize, P.Next, P.Dispatch;
      var event := currentEvent;
      var lastError := Undefined;
      var attempt := 1;
      while attempt <= o.maxRetries + 1
        invariant Valid() && attempt >= 1
        invariant P.RunRetry(p, i, o, event, attempt, lastError, State())
               == P.RunRetry(p, i, o, event, 1, Undefined, old(State()))
        decreases o.maxRetries + 1 - attempt
      {
        var r := Next(i, RetryUpdate(event, attempt));
        if r.Resolved? { return Resolved; }
        lastError := r.error;
        if !ShouldRetry(o, lastError) || attempt > o.maxRetries { return Rejected(lastError); }
        var aborted := AskSignal();
        if aborted.Rejected? { return Rejected(lastError); }
        var delay := o.delay(attempt);
        var slept := AskSignal();
        log := log + [Waited(delay)];
        if slept.Rejected? { return Rejected(slept.error); }
        aborted := AskSignal();
        if aborted.Rejected? { return Rejected(aborted.error); }
        attempt := attempt + 1;
      }
      return Rejected(lastError);
    }

    method RunDlq(i: nat, d: DlqOptions) returns (reply: Reply)
      requires Valid() && i < |p.layers|
      modifies this
      ensures Valid() && (reply, State()) == P.RunDlq(p, i, d, old(currentEvent), old(State()))
      decreases |p.layers| - i, 1, 0
    {
      var event := currentEvent;
      reply := Next(i, None);
      if reply.Resolved? || event.topic == d.topic { return; }
      match d.serialize(reply.error)
      case SerializerThrew(thrown) => return Rejected(thrown);
      case Text(text) =>
        var outcome := AskWorld();
        log := log + [Published(Letter(d, event, text), outcome)];
        if outcome.Resolved? {
          outcome := SettleContext(Ack);
        }
        if outcome.Resolved? { return Resolved; }
        reply := SettleContext(Nack(false));
    }

    /** The bus's callback for one message of the subscription. */
    method Deliver(route: Route, draining: bool) returns (reply: Reply)
      requires Valid() && State() == P.State(-1, Fresh(currentEvent))
      modifies this
      ensures Valid() && (reply, Core()) == P.Deliver(p, route, draining, old(currentEvent))
    {
      if route.Unrouted? {
        reply := AskWorld();
        log := log + [BrokerCall(Ack, reply)];
        return;
      }
      if draining {
        reply := AskWorld();
        log := log + [BrokerCall(Nack(true), reply)];
        return;
      }
      if p.layers == [] {
        reply := RunHandler();
      } else {
        index := -1;
        reply := Dispatch(0);
      }
      if !busSettled && reply.Resolved? {
        // the raw broker ack, past the context; its failure is swallowed
        var acked := AskWorld();
        log := log + [BrokerCall(Ack, acked)];
      }
    }
  }
}
