/**
 The retry and dead-letter layers in terms of their options and of the handler's own results: which failures are
 retried, how long each back-off is, what an abort does at each point, and what the handler's context calls reach.
 */
module RetryProperties {

  import opened Options
  import opened Pipelines
  import opened Onion
  import opened DeliveryProperties

  // ---------- which failures are retried ----------

  /** The handler's result on its `j`-th run of this delivery; it sees the attempt number `base + j - 1`. */
  function ResultOfRun(p: Pipeline, event: Event, j: nat): Reply
    requires j >= 1
  {
    p.handler(j - 1, event.(attempt := event.attempt + (j - 1))).result
  }

  /** There is no predicate, or it holds. */
  predicate Holds(retryableErrors: Option<Error -> bool>, error: Error)
  {
    retryableErrors.None? || retryableErrors.value(error)
  }

  /**
   A retry layer with the given options and no abort, whatever the broker answers. Of its `n` handler runs: a success
   is the last one; so is a failure with the non-retryable brand, whatever else it carries; a failure with only the
   retryable brand is followed by another run below the cap, whatever the predicate says; an unbranded one is
   followed by another run below the cap exactly when there is no predicate or it holds. The reply is the last run's.
   */
  lemma RetryDecisions(p: Pipeline, options: RetryOptions, event: Event, j: nat)
    requires p.layers == [Retry(Policy(options))] && (forall k :: p.signal(k) == Resolved) && options.maxRetries >= 0
    requires 1 <= j <= |Summarize(Composed(p, Fresh(event)).1.log).runs|
    ensures var (reply, c) := Composed(p, Fresh(event));
      var n, result := |Summarize(c.log).runs|, ResultOfRun(p, event, j);
      && n <= options.maxRetries + 1
      && Summarize(c.log).runs[j - 1] == event.(attempt := event.attempt + (j - 1))
      && reply == ResultOfRun(p, event, n)
      && (result.Resolved? ==> j == n)
      && (result.Rejected? ==>
            var error := result.error;
            var never := error.Failure? && error.nonRetryable;
            var always := error.Failure? && !error.nonRetryable && error.retryable;
            && (never ==> j == n)
            && (always ==> (j < n <==> j <= options.maxRetries))
            && (!never && !always ==>
                  (j < n <==> (j <= options.maxRetries && Holds(options.retryableErrors, error)))))
  {
    hide Summarize, CalculateDelay;
    SingleRetryCourse(p, Policy(options), event);
    var n := |Summarize(Composed(p, Fresh(event)).1.log).runs|;
    assert ResultOf(p, event, j) == ResultOfRun(p, event, j) && ResultOf(p, event, n) == ResultOfRun(p, event, n);
    assert RetryableFailure(p, Policy(options), event, j) ==> ResultOf(p, event, j).Rejected?;
  }

  // ---------- how long it waits ----------

  /** The initial delay, multiplied anew for every attempt after the first. */
  function Grown(options: RetryOptions, attempt: nat): real
    requires attempt >= 1
  {
    if attempt == 1 then options.initialDelay else options.multiplier * Grown(options, attempt - 1)
  }

  lemma TimesAgain(x: real, m: real, y: real)
    ensures x * (m * y) == m * (x * y)
  {}

  lemma {:induction false} GrownIsPower(options: RetryOptions, attempt: nat)
    requires attempt >= 1
    ensures Grown(options, attempt) == options.initialDelay * Power(options.multiplier, attempt - 1)
  {
    if attempt == 1 {
      assert Power(options.multiplier, 0) == 1.0;
    } else {
      GrownIsPower(options, attempt - 1);
      TimesAgain(options.initialDelay, options.multiplier, Power(options.multiplier, attempt - 2));
    }
  }

  /** The wait after an attempt: constant, proportional to the attempt, or growing geometrically, up to `maxDelay`. */
  lemma DelayOfBackoff(options: RetryOptions, attempt: nat)
    requires attempt >= 1
    ensures var delay := Policy(options).delay(attempt);
      var wanted := match options.backoff
        case Fixed => options.initialDelay
        case Linear => options.initialDelay * attempt as real
        case Exponential => Grown(options, attempt);
      delay == if wanted <= options.maxDelay then wanted else options.maxDelay
  {
    GrownIsPower(options, attempt);
  }

  // ---------- what an abort does ----------

  ghost predicate SilentHandler(p: Pipeline) { forall k: nat, e: Event :: p.handler(k, e).calls == [] }

  lemma SilentRun(p: Pipeline, c: Core)
    requires SilentHandler(p)
    ensures RunHandler(p, c).1.clock == c.clock
  {
    assert p.handler(|Summarize(c.log).runs|, c.event).calls == [];
  }

  /** The first look at the signal, the wait, or the look after it is answered with a rejection. */
  ghost predicate AbortedFirstAt(p: Pipeline, a: nat)
  {
    p.signal(a).Rejected? && forall k :: 0 <= k < a ==> p.signal(k) == Resolved
  }

  lemma {:induction false} AbortCourse(
      p: Pipeline, o: RetryPolicy, event: Event, attempt: nat, last: Error, c: Core, a: nat)
    requires p.layers == [Retry(o)] && SilentHandler(p) && AbortedFirstAt(p, a)
    requires 1 <= attempt <= a / 3 + 1 <= o.maxRetries && c.clock == 3 * (attempt - 1)
    requires Summarize(c.log).runs == Attempts(event, attempt - 1)
    requires Summarize(c.log).totalWait == WaitSum(o, attempt)
    requires attempt == 1 ==> c.event == event
    requires forall j :: 1 <= j <= a / 3 + 1 ==> RetryableFailure(p, o, event, j)
    ensures var (reply, after) := EnterRetry(p, 0, o, event, attempt, last, c);
      && Summarize(after.log).runs == Attempts(event, a / 3 + 1)
      && reply == (if a % 3 == 0 then ResultOf(p, event, a / 3 + 1) else p.signal(a))
      && Summarize(after.log).totalWait == WaitSum(o, if a % 3 == 0 then a / 3 + 1 else a / 3 + 2)
    decreases a / 3 + 1 - attempt
  {
    hide Summarize, AfterRejection, Attempts, CallsForRetry;
    var calling := Updated(c, RetryUpdate(event, attempt));
    assert calling.event == event.(attempt := event.attempt + (attempt - 1));
    HandlerCost(p, calling);
    SilentRun(p, calling);
    var (reply, after) := Enter(p, 1, calling);
    assert |Attempts(event, attempt - 1)| == attempt - 1 by { AttemptsSize(event, attempt - 1); }
    assert reply == ResultOf(p, event, attempt) && RetryableFailure(p, o, event, attempt);
    AttemptsSnoc(event, attempt - 1);
    AfterRejectionDecides(p, o, attempt, reply.error, after);
    SummarizeStep(after.log, Waited(o.delay(attempt)));
    var (failed, core) := AfterRejection(p, o, attempt, reply.error, after);
    if failed.None? { AbortCourse(p, o, event, attempt + 1, reply.error, core, a); }
  }

  /**
   One retry layer around a handler that leaves settling to the bus, whose failures all call for a retry, aborted for
   the first time at question `a`: a look before a wait (`a % 3 == 0`), a wait (1) or the look after it (2). The
   handler has run `a / 3 + 1` times and is not entered again. Seen before a wait, the abort lets the handler's own
   error through and nothing more is waited; afterwards the layer throws the abort's reason.
   */
  lemma AbortEndsRetry(p: Pipeline, o: RetryPolicy, event: Event, a: nat)
    requires p.layers == [Retry(o)] && SilentHandler(p) && AbortedFirstAt(p, a) && a / 3 + 1 <= o.maxRetries
    requires forall j :: 1 <= j <= a / 3 + 1 ==> RetryableFailure(p, o, event, j)
    ensures var (reply, c) := Composed(p, Fresh(event));
      && Summarize(c.log).runs == Attempts(event, a / 3 + 1)
      && reply == (if a % 3 == 0 then ResultOf(p, event, a / 3 + 1) else p.signal(a))
      && Summarize(c.log).totalWait == WaitSum(o, if a % 3 == 0 then a / 3 + 1 else a / 3 + 2)
  {
    ComposedIsOnion(p, Fresh(event));
    SummarizeStep([], LayerEntered(0, event));
    AbortCourse(p, o, event, 1, Undefined, Fresh(event).Log(LayerEntered(0, event)), a);
  }

  // ---------- what the handler's own calls reach ----------

  lemma {:induction false} SettleAllCalls(p: Pipeline, calls: seq<Settlement>, c: Core)
    ensures Summarize(SettleAll(p, calls, c).log).contextCalls == Summarize(c.log).contextCalls + calls
  {
    hide Summarize;
    if calls == [] {
      assert Summarize(c.log).contextCalls + [] == Summarize(c.log).contextCalls;
    } else {
      SummarizeStep(c.log, ContextCall(calls[0]));
      SummarizeStep(c.log + [ContextCall(calls[0])], BrokerCall(calls[0], p.world(c.clock)));
      SettleAllCalls(p, calls[1..], SettleContext(p, calls[0], c).1);
      assert calls == [calls[0]] + calls[1..];
    }
  }

  /** A run of the handler makes its context calls, in order, and ends as the handler does. */
  lemma HandlerMakesItsCalls(p: Pipeline, c: Core)
    ensures var script := p.handler(|Summarize(c.log).runs|, c.event);
      var (reply, after) := RunHandler(p, c);
      reply == script.result && Summarize(after.log).contextCalls == Summarize(c.log).contextCalls + script.calls
  {
    hide Summarize;
    var script := p.handler(|Summarize(c.log).runs|, c.event);
    var entered := c.Log(HandlerEntered(c.event));
    SummarizeStep(c.log, HandlerEntered(c.event));
    SettleAllCalls(p, script.calls, entered);
    SummarizeStep(SettleAll(p, script.calls, entered).log, HandlerLeft(script.result));
  }

  /**
   A routed delivery without middleware: the handler runs once, on the event itself; the broker sees its first context
   call, or without one an ack if it returned normally and nothing if it threw; the delivery ends as it does.
   */
  lemma BareDelivery(p: Pipeline, event: Event)
    requires p.layers == []
    ensures var (reply, c) := Deliver(p, Routed, false, event);
      var script, broker := p.handler(0, event), Summarize(c.log).brokerCalls;
      && Summarize(c.log).runs == [event] && reply == script.result
      && (if script.calls != [] then |broker| == 1 && broker[0].BrokerCall? && broker[0].call == script.calls[0]
          else if reply.Resolved? then |broker| == 1 && broker[0].BrokerCall? && broker[0].call == Ack
          else broker == [])
  {
    hide Summarize;
    SummarizeEmpty();
    SettledAtMostOnce(p, Routed, false, event);
    HandlerMakesItsCalls(p, Fresh(event));
    HandlerCost(p, Fresh(event));
    var (reply, after) := RunHandler(p, Fresh(event));
    SummarizeStep(after.log, BrokerCall(Ack, p.world(after.clock)));
  }

  // ---------- a serializer that throws ----------

  /**
   Off the dead-letter topic, when the layers inside fail and the error serializer throws on their error: the delivery
   rejects with what the serializer threw, nothing is published and the broker sees nothing.
   */
  lemma ThrowingSerializerRejects(p: Pipeline, d: DlqOptions, o: RetryPolicy, event: Event)
    requires p.layers == [Dlq(d), Retry(o)] && Silent(p) && event.topic != d.topic
    requires Enter(p, 1, Fresh(event).Log(LayerEntered(0, event))).0.Rejected?
    requires d.serialize(RetryFailure(p, event)).SerializerThrew?
    ensures var (reply, c) := Deliver(p, Routed, false, event);
      && reply == Rejected(d.serialize(RetryFailure(p, event)).error)
      && Summarize(c.log).brokerCalls == [] && Summarize(c.log).publishes == []
  {
    hide Summarize;
    SummarizeEmpty();
    ComposedIsOnion(p, Fresh(event));
    var outer := Fresh(event).Log(LayerEntered(0, event));
    var inner := outer.Log(LayerEntered(1, event));
    UntouchedLog(Fresh(event), LayerEntered(0, event));
    UntouchedLog(outer, LayerEntered(1, event));
    SilentRetry(p, 1, o, event, 1, Undefined, inner);
    assert Enter(p, 1, outer) == EnterRetry(p, 1, o, event, 1, Undefined, inner);
    assert Composed(p, Fresh(event)) == EnterDlq(p, 0, d, event, outer);
  }

  // ---------- the dead-letter layer, wherever it stands ----------

  /** A context call after the log is in order: what it adds to the log's summary. */
  lemma SettleAdds(p: Pipeline, call: Settlement, c: Core)
    ensures var (reply, after) := SettleContext(p, call, c);
      var s, s2 := Summarize(c.log), Summarize(after.log);
      && after.settled
      && s2.contextCalls == s.contextCalls + [call] && s2.publishes == s.publishes && s2.runs == s.runs
      && (if c.settled then reply == Resolved && s2.brokerCalls == s.brokerCalls && after.clock == c.clock
          else reply == p.world(c.clock) && s2.brokerCalls == s.brokerCalls + [BrokerCall(call, reply)])
  {
    hide Summarize;
    SummarizeStep(c.log, ContextCall(call));
    SummarizeStep(c.log + [ContextCall(call)], BrokerCall(call, p.world(c.clock)));
  }

  /** What a layer inside rejected with. */
  function InnerError(p: Pipeline, i: nat, c: Core): Error
    requires i < |p.layers|
  {
    match Enter(p, i + 1, c).0
    case Rejected(error) => error
    case Resolved => Undefined
  }

  /**
   A dead-letter layer at any place in any stack, around any handler, whatever it has settled before. If the layers
   inside resolve, so does the layer, with nothing added. If they fail on the dead-letter topic or the serializer
   throws, it rethrows with nothing added. Else exactly one copy of the event is published, with its topic, id and
   attempt and the serialized error; then the broker sees, unless the context was settled before, exactly one
   settlement: an ack if the publish succeeded, a nack without requeue if it did not.
   */
  lemma DeadLetterLayer(p: Pipeline, i: nat, d: DlqOptions, event: Event, c: Core)
    requires i < |p.layers|
    ensures var (inner, after) := Enter(p, i + 1, c);
      var (reply, end) := EnterDlq(p, i, d, event, c);
      var s, s2 := Summarize(after.log), Summarize(end.log);
      if inner.Resolved? || event.topic == d.topic then reply == inner && end == after
      else match d.serialize(InnerError(p, i, c))
        case SerializerThrew(thrown) => reply == Rejected(thrown) && end == after
        case Text(text) =>
          var published, letter := p.world(after.clock),
            DeadLetter(d.topic, event.payload, event.topic, event.id, text, event.attempt);
          && s2.publishes == s.publishes + [Published(letter, published)] && s2.runs == s.runs && end.settled
          && |s2.contextCalls| > |s.contextCalls|
          && s2.contextCalls[|s.contextCalls|] == (if published.Resolved? then Ack else Nack(false))
          && (if after.settled then reply == Resolved && s2.brokerCalls == s.brokerCalls
              else
                var call, answer := if published.Resolved? then Ack else Nack(false), p.world(after.clock + 1);
                && s2.brokerCalls == s.brokerCalls + [BrokerCall(call, answer)]
                && reply == if published.Resolved? then Resolved else answer)
  {
    hide Summarize, Enter;
    var (inner, after) := Enter(p, i + 1, c);
    if inner.Rejected? && event.topic != d.topic && d.serialize(inner.error).Text? {
      var letter := Letter(d, event, d.serialize(inner.error).text);
      var published := after.Ask().Log(Published(letter, p.world(after.clock)));
      SummarizeStep(after.log, Published(letter, p.world(after.clock)));
      SettleAdds(p, Nack(false), published);
      SettleAdds(p, Ack, published);
      SettleAdds(p, Nack(false), SettleContext(p, Ack, published).1);
    }
  }
}
