/**
 What the pipeline guarantees for every handler, world and stack of layers: one settlement per delivery, bounds
 on how often the handler runs, the exact course of a single retry layer, and the dead-letter guarantee.
 */
module DeliveryProperties {
  import opened Options
  import opened Pipelines
  import opened Onion

  // ---------- settlement ----------

  /** The broker has seen exactly the first context call, if there was any. */
  ghost predicate Ledger(c: Core)
  {
    var calls, broker := Summarize(c.log).contextCalls, Summarize(c.log).brokerCalls;
    && (c.settled <==> calls != [])
    && |broker| == (if calls == [] then 0 else 1)
    && (calls != [] ==> broker[0].BrokerCall? && broker[0].call == calls[0])
  }

  lemma LedgerIsStable(p: Pipeline)
    ensures Stable(p, Ledger)
  {
    hide Summarize;
    forall c: Core, e: Entry | Ledger(c) && !e.ContextCall? && !e.BrokerCall? ensures Ledger(c.Log(e)) {
      SummarizeStep(c.log, e);
    }
    forall c: Core, call: Settlement | Ledger(c) ensures Ledger(SettleContext(p, call, c).1) {
      var called := c.Log(ContextCall(call));
      SummarizeStep(c.log, ContextCall(call));
      if !c.settled { SummarizeStep(called.log, BrokerCall(call, p.world(c.clock))); }
    }
  }

  /**
   One delivery, one settlement, whatever the layers and the handler do: the first context call if one was made,
   else one auto-ack if the pipeline returned normally, else nothing. Unrouted events are acked once, events that
   arrive during a drain are put back once, and neither reaches a layer or the handler.
   */
  lemma SettledAtMostOnce(p: Pipeline, route: Route, draining: bool, event: Event)
    ensures var (reply, c) := Deliver(p, route, draining, event);
      var calls, broker := Summarize(c.log).contextCalls, Summarize(c.log).brokerCalls;
      if route.Unrouted? then c.log == [BrokerCall(Ack, reply)]
      else if draining then c.log == [BrokerCall(Nack(true), reply)]
      else if calls != [] then |broker| == 1 && broker[0].BrokerCall? && broker[0].call == calls[0]
      else if reply.Resolved? then |broker| == 1 && broker[0].BrokerCall? && broker[0].call == Ack
      else broker == []
  {
    hide Summarize;
    SummarizeEmpty();
    LedgerIsStable(p);
    EnterKeeps(p, Ledger, 0, Fresh(event));
    ComposedIsOnion(p, Fresh(event));
    var (reply, after) := Composed(p, Fresh(event));
    SummarizeStep(after.log, BrokerCall(Ack, p.world(after.clock)));
  }

  // ---------- how often the handler runs ----------

  /** Product of the attempts of the retry layers from `i` inwards. */
  function AttemptLimit(layers: seq<Layer>, i: nat): nat
    requires i <= |layers|
    decreases |layers| - i
  {
    if i == |layers| then 1 else
    match layers[i]
    case Retry(o) => (if o.maxRetries < 0 then 0 else o.maxRetries + 1) * AttemptLimit(layers, i + 1)
    case _ => AttemptLimit(layers, i + 1)
  }

  predicate BuiltIn(layers: seq<Layer>) { forall j :: 0 <= j < |layers| ==> !layers[j].Custom? }

  predicate RetryOnly(layers: seq<Layer>, i: nat) { forall j :: i <= j < |layers| ==> layers[j].Retry? }

  /** Entering with `reply` and going from `c` to `after` cost at most `limit` handler runs and one success. */
  predicate Cost(limit: nat, exact: bool, reply: Reply, c: Core, after: Core)
  {
    && |Summarize(after.log).runs| <= |Summarize(c.log).runs| + limit
    && Summarize(after.log).successes <= Summarize(c.log).successes + 1
    && (reply.Rejected? ==> Summarize(after.log).successes == Summarize(c.log).successes)
    && (exact && reply.Resolved? ==> Summarize(after.log).successes == Summarize(c.log).successes + 1)
  }

  /** Context calls never touch what the log says about handler runs. */
  lemma SettleContextIsFree(p: Pipeline, call: Settlement, c: Core)
    ensures var after := SettleContext(p, call, c).1;
      Summarize(after.log).runs == Summarize(c.log).runs && Summarize(after.log).successes == Summarize(c.log).successes
      && Summarize(after.log).totalWait == Summarize(c.log).totalWait
  {
    SummarizeStep(c.log, ContextCall(call));
    SummarizeStep(c.log + [ContextCall(call)], BrokerCall(call, p.world(c.clock)));
  }

  lemma {:induction false} SettleAllIsFree(p: Pipeline, calls: seq<Settlement>, c: Core)
    ensures var after := SettleAll(p, calls, c);
      Summarize(after.log).runs == Summarize(c.log).runs && Summarize(after.log).successes == Summarize(c.log).successes
      && Summarize(after.log).totalWait == Summarize(c.log).totalWait
  {
    if calls == [] {
    } else {
      SettleContextIsFree(p, calls[0], c);
      SettleAllIsFree(p, calls[1..], SettleContext(p, calls[0], c).1);
    }
  }

  lemma HandlerCost(p: Pipeline, c: Core)
    ensures var (reply, after) := RunHandler(p, c);
      && Summarize(after.log).runs == Summarize(c.log).runs + [c.event]
      && Summarize(after.log).successes == Summarize(c.log).successes + (if reply.Resolved? then 1 else 0)
      && Summarize(after.log).totalWait == Summarize(c.log).totalWait
  {
    hide Summarize;
    var script := p.handler(|Summarize(c.log).runs|, c.event);
    var entered := c.Log(HandlerEntered(c.event));
    SummarizeStep(c.log, HandlerEntered(c.event));
    SettleAllIsFree(p, script.calls, entered);
    SummarizeStep(SettleAll(p, script.calls, entered).log, HandlerLeft(script.result));
  }

  lemma AfterRejectionIsFree(p: Pipeline, o: RetryPolicy, attempt: nat, error: Error, c: Core)
    requires attempt >= 1
    ensures var after := AfterRejection(p, o, attempt, error, c).1;
      && Summarize(after.log).runs == Summarize(c.log).runs
      && Summarize(after.log).successes == Summarize(c.log).successes
      && (Summarize(after.log).totalWait == Summarize(c.log).totalWait
          || (attempt <= o.maxRetries
              && Summarize(after.log).totalWait == Summarize(c.log).totalWait + o.delay(attempt)))
      && (AfterRejection(p, o, attempt, error, c).0.None? ==>
            Summarize(after.log).totalWait == Summarize(c.log).totalWait + o.delay(attempt))
  {
    hide Summarize;
    SummarizeStep(c.log, Waited(o.delay(attempt)));
  }

  lemma DeadLetterFailureIsFree(p: Pipeline, d: DlqOptions, event: Event, error: Error, c: Core)
    ensures var after := DeadLetterFailure(p, d, event, error, c).1;
      Summarize(after.log).runs == Summarize(c.log).runs && Summarize(after.log).successes == Summarize(c.log).successes
  {
    hide Summarize;
    var text := d.serialize(error);
    if event.topic != d.topic && text.Text? {
      var entry := Published(Letter(d, event, text.text), p.world(c.clock));
      var published := c.Ask().Log(entry);
      SummarizeStep(c.log, entry);
      SettleContextIsFree(p, Nack(false), published);
      SettleContextIsFree(p, Ack, published);
      SettleContextIsFree(p, Nack(false), SettleContext(p, Ack, published).1);
    }
  }

  lemma {:induction false} EnterCost(p: Pipeline, i: nat, c: Core)
    requires i <= |p.layers| && BuiltIn(p.layers)
    ensures var (reply, after) := Enter(p, i, c);
      Cost(AttemptLimit(p.layers, i), RetryOnly(p.layers, i), reply, c, after)
    decreases |p.layers| - i, 2, 0
  {
    hide Summarize;
    if i == |p.layers| {
      HandlerCost(p, c);
    } else {
      SummarizeStep(c.log, LayerEntered(i, c.event));
      var entered := c.Log(LayerEntered(i, c.event));
      match p.layers[i]
      case Retry(o) => RetryCost(p, i, o, c.event, 1, Undefined, entered);
      case Dlq(d) =>
        EnterCost(p, i + 1, entered);
        var (reply, after) := Enter(p, i + 1, entered);
        if reply.Rejected? { DeadLetterFailureIsFree(p, d, c.event, reply.error, after); }
        assert (Enter(p, i, c)) == EnterDlq(p, i, d, c.event, entered);
    }
  }

  lemma {:induction false} RetryCost(
      p: Pipeline, i: nat, o: RetryPolicy, event: Event, attempt: nat, last: Error, c: Core)
    requires i < |p.layers| && BuiltIn(p.layers) && attempt >= 1
    ensures var (reply, after) := EnterRetry(p, i, o, event, attempt, last, c);
      var turns := if attempt <= o.maxRetries + 1 then o.maxRetries + 2 - attempt else 0;
      Cost(turns * AttemptLimit(p.layers, i + 1), RetryOnly(p.layers, i + 1), reply, c, after)
    decreases |p.layers| - i, 1, if attempt <= o.maxRetries + 1 then o.maxRetries + 2 - attempt else 0
  {
    hide Enter, AfterRejection, AttemptLimit, Summarize;
    if attempt <= o.maxRetries + 1 {
      var limit := AttemptLimit(p.layers, i + 1);
      var turns := o.maxRetries + 2 - attempt;
      assert turns * limit == limit + (turns - 1) * limit;
      var calling := Updated(c, RetryUpdate(event, attempt));
      EnterCost(p, i + 1, calling);
      var (reply, after) := Enter(p, i + 1, calling);
      if reply.Rejected? {
        AfterRejectionIsFree(p, o, attempt, reply.error, after);
        var (failed, core) := AfterRejection(p, o, attempt, reply.error, after);
        if failed.None? { RetryCost(p, i, o, event, attempt + 1, reply.error, core); }
      }
    }
  }

  /**
   Any stack of retry and dead-letter layers, in any order: per delivery the handler is entered at most
   (m1 + 1) * ... * (mk + 1) times, and it succeeds at most once.
   */
  lemma HandlerRunsAreBounded(p: Pipeline, event: Event)
    requires BuiltIn(p.layers)
    ensures var (reply, c) := Deliver(p, Routed, false, event);
      && |Summarize(c.log).runs| <= AttemptLimit(p.layers, 0)
      && Summarize(c.log).successes <= 1
      && (reply.Rejected? ==> Summarize(c.log).successes == 0)
  {
    EnterCost(p, 0, Fresh(event));
    ComposedIsOnion(p, Fresh(event));
    var (reply, after) := Composed(p, Fresh(event));
    SummarizeStep(after.log, BrokerCall(Ack, p.world(after.clock)));
  }

  // ---------- a single retry layer ----------

  /** The handler's result on its `j`-th run, if it gets that far. */
  function ResultOf(p: Pipeline, event: Event, j: nat): Reply
    requires j >= 1
  {
    p.handler(j - 1, event.(attempt := event.attempt + (j - 1))).result
  }

  /** Whether an error is one to retry on, by its brands and the optional predicate. */
  predicate CallsForRetry(retryableErrors: Option<Error -> bool>, error: Error)
  {
    if error.Failure? && error.nonRetryable then false
    else if error.Failure? && error.retryable then true
    else match retryableErrors
      case Some(retryable) => retryable(error)
      case None => true
  }

  predicate RetryableFailure(p: Pipeline, o: RetryPolicy, event: Event, j: nat)
    requires j >= 1
  {
    ResultOf(p, event, j).Rejected? && CallsForRetry(o.retryableErrors, ResultOf(p, event, j).error)
  }

  /** The back-off before run `n`, all in all. */
  function WaitSum(o: RetryPolicy, n: nat): real { if n <= 1 then 0.0 else WaitSum(o, n - 1) + o.delay(n - 1) }

  /** The events the handler saw on its first `n` runs. */
  function Attempts(event: Event, n: nat): seq<Event> { seq(n, (k: nat) => event.(attempt := event.attempt + k)) }

  /** What follows a rejected attempt: the signal is asked before the wait, during it and after it. */
  lemma AfterRejectionDecides(p: Pipeline, o: RetryPolicy, attempt: nat, error: Error, c: Core)
    requires attempt >= 1
    ensures var (failed, core) := AfterRejection(p, o, attempt, error, c);
      var waited := c.log + [Waited(o.delay(attempt))];
      if !CallsForRetry(o.retryableErrors, error) || attempt > o.maxRetries then failed == Some(error) && core == c
      else if p.signal(c.clock).Rejected? then failed == Some(error) && core.log == c.log
      else if p.signal(c.clock + 1).Rejected? then failed == Some(p.signal(c.clock + 1).error) && core.log == waited
      else if p.signal(c.clock + 2).Rejected? then failed == Some(p.signal(c.clock + 2).error) && core.log == waited
      else failed == None && core == c.(clock := c.clock + 3, log := waited)
  {}

  lemma AttemptsSize(event: Event, n: nat)
    ensures |Attempts(event, n)| == n
  {}

  lemma AttemptsSnoc(event: Event, n: nat)
    ensures Attempts(event, n) + [event.(attempt := event.attempt + n)] == Attempts(event, n + 1)
  {}

  /** `n` runs are one plus the leading retryable failures, capped at `maxRetries + 1`. */
  predicate StopsAfter(p: Pipeline, o: RetryPolicy, event: Event, n: nat)
  {
    && 1 <= n <= o.maxRetries + 1
    && (forall j :: 1 <= j < n ==> RetryableFailure(p, o, event, j))
    && (n == o.maxRetries + 1 || !RetryableFailure(p, o, event, n))
  }

  lemma {:induction false} RetryCourse(
      p: Pipeline, o: RetryPolicy, event: Event, attempt: nat, last: Error, c: Core) returns (n: nat)
    requires p.layers == [Retry(o)] && (forall k :: p.signal(k) == Resolved)
    requires 1 <= attempt <= o.maxRetries + 1
    requires Summarize(c.log).runs == Attempts(event, attempt - 1)
    requires Summarize(c.log).totalWait == WaitSum(o, attempt)
    requires attempt == 1 ==> c.event == event
    requires forall j :: 1 <= j < attempt ==> RetryableFailure(p, o, event, j)
    ensures StopsAfter(p, o, event, n)
    ensures var (reply, after) := EnterRetry(p, 0, o, event, attempt, last, c);
      && reply == ResultOf(p, event, n) && Summarize(after.log).runs == Attempts(event, n)
      && Summarize(after.log).totalWait == WaitSum(o, n)
    decreases o.maxRetries + 1 - attempt
  {
    hide Summarize, AfterRejection, Attempts, CallsForRetry;
    var calling := Updated(c, RetryUpdate(event, attempt));
    assert calling.event == event.(attempt := event.attempt + (attempt - 1));
    HandlerCost(p, calling);
    var (reply, after) := Enter(p, 1, calling);
    assert |Attempts(event, attempt - 1)| == attempt - 1 by { AttemptsSize(event, attempt - 1); }
    assert reply == ResultOf(p, event, attempt);
    AttemptsSnoc(event, attempt - 1);
    n := attempt;
    if reply.Rejected? {
      AfterRejectionDecides(p, o, attempt, reply.error, after);
      SummarizeStep(after.log, Waited(o.delay(attempt)));
      var (failed, core) := AfterRejection(p, o, attempt, reply.error, after);
      if failed.None? { n := RetryCourse(p, o, event, attempt + 1, reply.error, core); }
    }
  }

  /**
   With one retry layer and no abort, whatever the broker answers: the number of handler runs is one plus the
   leading retryable failures, capped at `maxRetries + 1`; run `j` sees the attempt number `base + j - 1`; before each
   run but the first the layer waits for its back-off; the pipeline's reply is the last run's. A negative
   `maxRetries` never runs the handler and throws an undefined error.
   */
  lemma SingleRetryCourse(p: Pipeline, o: RetryPolicy, event: Event)
    requires p.layers == [Retry(o)] && (forall k :: p.signal(k) == Resolved)
    ensures var (reply, c) := Composed(p, Fresh(event));
      if o.maxRetries < 0 then Summarize(c.log).runs == [] && reply == Rejected(Undefined)
      else
        var n := |Summarize(c.log).runs|;
        && StopsAfter(p, o, event, n)
        && Summarize(c.log).runs == Attempts(event, n)
        && Summarize(c.log).totalWait == WaitSum(o, n)
        && reply == ResultOf(p, event, n)
  {
    ComposedIsOnion(p, Fresh(event));
    var entered := Fresh(event).Log(LayerEntered(0, event));
    SummarizeStep([], LayerEntered(0, event));
    if o.maxRetries >= 0 {
      var n := RetryCourse(p, o, event, 1, Undefined, entered);
    }
  }

  /** `n` waits of at most `most` each. */
  function WaitLimit(n: nat, most: real): real { if n == 0 then 0.0 else most + WaitLimit(n - 1, most) }

  lemma {:induction false} WaitLimitIsProduct(n: nat, most: real)
    ensures WaitLimit(n, most) == n as real * most
  {
    if n == 0 {} else { WaitLimitIsProduct(n - 1, most); }
  }

  lemma {:induction false} WaitLimitIsNonNegative(n: nat, most: real)
    requires most >= 0.0
    ensures WaitLimit(n, most) >= 0.0
  {
    if n == 0 {} else { WaitLimitIsNonNegative(n - 1, most); }
  }

  lemma {:induction false} RetryWait(
      p: Pipeline, o: RetryPolicy, most: real, event: Event, attempt: nat, last: Error, c: Core)
    requires p.layers == [Retry(o)] && attempt >= 1 && most >= 0.0
    requires forall k :: o.delay(k) <= most
    ensures var after := EnterRetry(p, 0, o, event, attempt, last, c).1;
      var waits := if attempt <= o.maxRetries then o.maxRetries + 1 - attempt else 0;
      Summarize(after.log).totalWait <= Summarize(c.log).totalWait + WaitLimit(waits, most)
    decreases if attempt <= o.maxRetries + 1 then o.maxRetries + 2 - attempt else 0
  {
    hide Summarize, AfterRejection;
    var waits := if attempt <= o.maxRetries then o.maxRetries + 1 - attempt else 0;
    WaitLimitIsNonNegative(waits, most);
    if attempt <= o.maxRetries + 1 {
      var calling := Updated(c, RetryUpdate(event, attempt));
      HandlerCost(p, calling);
      var (reply, after) := Enter(p, 1, calling);
      if reply.Rejected? {
        AfterRejectionIsFree(p, o, attempt, reply.error, after);
        var (failed, core) := AfterRejection(p, o, attempt, reply.error, after);
        if attempt <= o.maxRetries { assert WaitLimit(waits, most) == most + WaitLimit(waits - 1, most); }
        if attempt <= o.maxRetries { WaitLimitIsNonNegative(waits - 1, most); }
        if failed.None? { RetryWait(p, o, most, event, attempt + 1, reply.error, core); }
      }
    }
  }

  function NonNegative(x: real): real { if x < 0.0 then 0.0 else x }

  /** Total back-off of one retry layer, aborted or not, is at most `maxRetries * maxDelay`, or none if that is less. */
  lemma BackoffIsBounded(p: Pipeline, options: RetryOptions, event: Event)
    requires p.layers == [Retry(Policy(options))]
    ensures Summarize(Composed(p, Fresh(event)).1.log).totalWait
         <= (if options.maxRetries < 0 then 0 else options.maxRetries) as real * NonNegative(options.maxDelay)
  {
    hide Summarize;
    SummarizeEmpty();
    var o := Policy(options);
    var waits := if options.maxRetries < 0 then 0 else options.maxRetries;
    ComposedIsOnion(p, Fresh(event));
    SummarizeStep([], LayerEntered(0, event));
    RetryWait(p, o, NonNegative(options.maxDelay), event, 1, Undefined, Fresh(event).Log(LayerEntered(0, event)));
    WaitLimitIsProduct(waits, NonNegative(options.maxDelay));
  }

  // ---------- dead-letter outside, retry inside ----------

  ghost predicate Silent(p: Pipeline) { forall k: nat, e: Event :: p.handler(k, e).calls == [] }

  ghost predicate Untouched(c: Core)
  {
    && Summarize(c.log).brokerCalls == [] && Summarize(c.log).publishes == []
    && Summarize(c.log).contextCalls == [] && !c.settled
  }

  lemma UntouchedLog(c: Core, e: Entry)
    requires Untouched(c) && !e.BrokerCall? && !e.Published? && !e.ContextCall?
    ensures Untouched(c.Log(e))
  {
    hide Summarize;
    SummarizeStep(c.log, e);
  }

  /** A retry layer around a handler that makes no context calls touches neither broker nor dead-letter topic. */
  lemma {:induction false} SilentRetry(
      p: Pipeline, i: nat, o: RetryPolicy, event: Event, attempt: nat, last: Error, c: Core)
    requires i + 1 == |p.layers| && Silent(p) && attempt >= 1 && Untouched(c)
    ensures Untouched(EnterRetry(p, i, o, event, attempt, last, c).1)
    decreases if attempt <= o.maxRetries + 1 then o.maxRetries + 2 - attempt else 0
  {
    hide Summarize;
    if attempt <= o.maxRetries + 1 {
      var calling := Updated(c, RetryUpdate(event, attempt));
      var (reply, after) := Enter(p, i + 1, calling);
      UntouchedLog(calling, HandlerEntered(calling.event));
      UntouchedLog(calling.Log(HandlerEntered(calling.event)), HandlerLeft(reply));
      if reply.Rejected? {
        var (failed, core) := AfterRejection(p, o, attempt, reply.error, after);
        UntouchedLog(after, Waited(o.delay(attempt)));
        if failed.None? { SilentRetry(p, i, o, event, attempt + 1, reply.error, core); }
      }
    }
  }

  /** The dead-letter layer's reaction, from a state in which nothing has been settled or published. */
  lemma FailureOutcome(p: Pipeline, d: DlqOptions, event: Event, error: Error, c: Core)
    requires Untouched(c) && event.topic != d.topic && d.serialize(error).Text?
    ensures var (reply, after) := DeadLetterFailure(p, d, event, error, c);
      var letter := Letter(d, event, d.serialize(error).text);
      && after.settled
      && |Summarize(after.log).brokerCalls| == 1 && Summarize(after.log).brokerCalls[0].BrokerCall?
      && |Summarize(after.log).publishes| == 1 && Summarize(after.log).publishes[0].Published?
      && Summarize(after.log).publishes[0].letter == letter
      && (if Summarize(after.log).publishes[0].reply.Resolved?
          then Summarize(after.log).brokerCalls[0].call == Ack && reply == Resolved
          else Summarize(after.log).brokerCalls[0].call == Nack(false)
               && reply == Summarize(after.log).brokerCalls[0].reply)
  {
    hide Summarize;
    var text := d.serialize(error).text;
    var entry := Published(Letter(d, event, text), p.world(c.clock));
    var published := c.Ask().Log(entry);
    SummarizeStep(c.log, entry);
    var call := if p.world(c.clock).Resolved? then Ack else Nack(false);
    var settled := SettleContext(p, call, published).1;
    SummarizeStep(published.log, ContextCall(call));
    SummarizeStep(published.log + [ContextCall(call)], BrokerCall(call, p.world(published.clock)));
    // a context nack after a failed ack no longer reaches the broker
    SummarizeStep(settled.log, ContextCall(Nack(false)));
  }

  /** The error the layers inside the dead-letter layer ended with. */
  function RetryFailure(p: Pipeline, event: Event): Error
    requires |p.layers| >= 1
  {
    match Enter(p, 1, Fresh(event).Log(LayerEntered(0, event))).0
    case Rejected(error) => error
    case Resolved => Undefined
  }

  /**
   The built-in dead-letter-then-retry pipeline, for a handler that leaves settling to the bus and a serializer
   that does not throw. Off the dead-letter topic there is exactly one settlement: an ack, either after a success
   or after the event was published to the dead-letter topic with the error the retries ended with; or, when that
   publish failed, a nack without requeue, and only if the broker rejects this very nack does the delivery reject.
   On the dead-letter topic nothing is ever published and a failure is rethrown unsettled.
   */
  lemma DeadLetterGuarantee(p: Pipeline, d: DlqOptions, o: RetryPolicy, event: Event)
    requires p.layers == [Dlq(d), Retry(o)] && Silent(p)
    requires forall e: Error :: d.serialize(e).Text?
    ensures var (reply, c) := Deliver(p, Routed, false, event);
      var broker, letters := Summarize(c.log).brokerCalls, Summarize(c.log).publishes;
      var succeeded := Summarize(c.log).successes == 1;
      if succeeded then
        && letters == [] && reply == Resolved && |broker| == 1 && broker[0].BrokerCall? && broker[0].call == Ack
      else if event.topic == d.topic then
        letters == [] && broker == [] && reply.Rejected?
      else
        && |broker| == 1 && broker[0].BrokerCall?
        && |letters| == 1 && letters[0].Published?
        && letters[0].letter
           == DeadLetter(d.topic, event.payload, event.topic, event.id, d.serialize(RetryFailure(p, event)).text,
                         event.attempt)
        && (letters[0].reply.Resolved? ==> broker[0].call == Ack && reply == Resolved)
        && (letters[0].reply.Rejected? ==> broker[0].call == Nack(false) && reply == broker[0].reply)
  {
    hide Summarize;
    SummarizeEmpty();
    ComposedIsOnion(p, Fresh(event));
    var outer := Fresh(event).Log(LayerEntered(0, event));
    var inner := outer.Log(LayerEntered(1, event));
    UntouchedLog(Fresh(event), LayerEntered(0, event));
    UntouchedLog(outer, LayerEntered(1, event));
    SilentRetry(p, 1, o, event, 1, Undefined, inner);
    var (r, after) := Enter(p, 1, outer);
    assert (r, after) == EnterRetry(p, 1, o, event, 1, Undefined, inner);
    SummarizeStep([], LayerEntered(0, event));
    EnterCost(p, 1, outer);
    assert Composed(p, Fresh(event)) == EnterDlq(p, 0, d, event, outer);
    if r.Resolved? {
      SummarizeStep(after.log, BrokerCall(Ack, p.world(after.clock)));
    } else {
      DeadLetterFailureIsFree(p, d, event, r.error, after);
      if event.topic != d.topic { FailureOutcome(p, d, event, r.error, after); }
    }
  }
}
