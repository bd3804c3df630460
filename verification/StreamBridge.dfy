/**
 The push-to-pull queue under a streaming call: the producer pushes, closes or fails it, a consumer iterates it.
 Each stretch of code between two awaits is one step; runs are arbitrary interleavings of steps.
 */
module StreamBridges {

  import opened Options

  /** A consumer: asked for nothing, waiting for `notify`, about to resume, or through. */
  datatype Phase<E> = Idle | Parked | Woken | Ended | Threw(error: E)
  {
    predicate Done() { Ended? || Threw? }
  }

  datatype State<T, E> = State(
    buffer: seq<T>,
    closed: bool,
    failure: Option<E>,
    notify: Option<nat>,        // the consumer whose wait the next wake ends
    consumers: seq<Phase<E>>,
    yielded: seq<T>)            // what all consumers received, in order
  {
    predicate Open() { !closed && failure.None? }
  }

  datatype Event<T, E> =
    | Push(value: T)
    | Close
    | Fail(error: E)
    | Iterate                   // a new consumer
    | Pull(consumer: nat)       // an idle consumer asks for the next value
    | Resume(consumer: nat)     // a woken consumer continues

  function Start<T, E>(): State<T, E> { State([], false, None, None, [], []) }

  function Notified<T, E>(s: State<T, E>): State<T, E>
  {
    match s.notify
    case Some(c) => s.(notify := None, consumers := if c < |s.consumers| then s.consumers[c := Woken] else s.consumers)
    case None => s
  }

  /** The consumer's loop from its head to the next yield, await or exit. */
  function Advance<T, E>(s: State<T, E>, c: nat): State<T, E>
    requires c < |s.consumers|
  {
    if s.buffer != [] then
      s.(buffer := s.buffer[1..], yielded := s.yielded + [s.buffer[0]], consumers := s.consumers[c := Idle])
    else match s.failure
      case Some(e) => s.(consumers := s.consumers[c := Threw(e)])
      case None =>
        if s.closed then s.(consumers := s.consumers[c := Ended])
        else s.(consumers := s.consumers[c := Parked], notify := Some(c))
  }

  function Step<T, E>(s: State<T, E>, event: Event<T, E>): State<T, E>
  {
    match event
    case Push(v) => if s.Open() then Notified(s.(buffer := s.buffer + [v])) else s
    case Close => Notified(s.(closed := true))
    case Fail(e) => Notified(s.(failure := if s.failure.None? then Some(e) else s.failure, closed := true))
    case Iterate => s.(consumers := s.consumers + [Idle])
    case Pull(c) => if c < |s.consumers| && s.consumers[c].Idle? then Advance(s, c) else s
    case Resume(c) => if c < |s.consumers| && s.consumers[c].Woken? then Advance(s, c) else s
  }

  function Run<T, E>(events: seq<Event<T, E>>): State<T, E>
  {
    if events == [] then Start() else Step(Run(events[..|events| - 1]), events[|events| - 1])
  }

  // ---------- what a history amounts to ----------

  ghost predicate ClosedIn<T(!new), E(!new)>(events: seq<Event<T, E>>)
  {
    exists k :: 0 <= k < |events| && (events[k].Close? || events[k].Fail?)
  }

  /** The values pushed before the first close or fail. */
  ghost function Accepted<T(!new), E(!new)>(events: seq<Event<T, E>>): seq<T>
  {
    if events == [] then [] else
    var front, last := events[..|events| - 1], events[|events| - 1];
    Accepted(front) + if last.Push? && !ClosedIn(front) then [last.value] else []
  }

  ghost function FirstFailure<T, E>(events: seq<Event<T, E>>): Option<E>
  {
    if events == [] then None
    else if events[0].Fail? then Some(events[0].error)
    else FirstFailure(events[1..])
  }

  function Consumers<T, E>(events: seq<Event<T, E>>): nat
  {
    if events == [] then 0
    else Consumers(events[..|events| - 1]) + if events[|events| - 1].Iterate? then 1 else 0
  }

  // ---------- what every step keeps ----------

  /** The waiting consumer that `notify` names has nothing to take and nothing to report. */
  ghost predicate NotifyIsWaiting<T, E>(s: State<T, E>)
  {
    s.notify.Some? ==>
      s.notify.value < |s.consumers| && s.consumers[s.notify.value].Parked? && s.buffer == [] && s.Open()
  }

  ghost predicate Sound<T, E>(s: State<T, E>)
  {
    && NotifyIsWaiting(s)
    && (s.failure.Some? ==> s.closed)
    && forall c :: 0 <= c < |s.consumers| ==> Through(s, s.consumers[c])
  }

  /** A consumer that is through found the queue empty and closed, or failed with the error it threw. */
  ghost predicate Through<T, E>(s: State<T, E>, phase: Phase<E>)
  {
    && (phase.Done() ==> s.buffer == [] && s.closed)
    && (phase.Threw? ==> s.failure == Some(phase.error))
  }

  lemma StepKeepsSound<T, E>(s: State<T, E>, event: Event<T, E>)
    requires Sound(s)
    ensures Sound(Step(s, event))
  {
    var s' := Step(s, event);
    forall c | 0 <= c < |s'.consumers| ensures Through(s', s'.consumers[c]) {
      if c < |s.consumers| { assert Through(s, s.consumers[c]); }
    }
  }

  lemma {:induction false} RunIsSound<T(!new), E(!new)>(events: seq<Event<T, E>>)
    ensures var s := Run(events);
      Sound(s) && (s.closed <==> ClosedIn(events)) && s.failure == FirstFailure(events)
  {
    if events == [] {
    } else {
      var front, last := events[..|events| - 1], events[|events| - 1];
      RunIsSound(front);
      StepKeepsSound(Run(front), last);
      assert events == front + [last];
      FirstFailureSnoc(front, last);
      ClosedInSnoc(front, last);
    }
  }

  lemma {:induction false} FirstFailureSnoc<T, E>(front: seq<Event<T, E>>, last: Event<T, E>)
    ensures FirstFailure(front + [last]) ==
      if FirstFailure(front).None? && last.Fail? then Some(last.error) else FirstFailure(front)
  {
    if front == [] {
      assert [last][1..] == [];
    } else {
      assert (front + [last])[1..] == front[1..] + [last];
      FirstFailureSnoc(front[1..], last);
    }
  }

  lemma ClosedInSnoc<T(!new), E(!new)>(front: seq<Event<T, E>>, last: Event<T, E>)
    ensures ClosedIn(front + [last]) <==> ClosedIn(front) || last.Close? || last.Fail?
  {
    var events := front + [last];
    assert events[|front|] == last;
    if k :| 0 <= k < |front| && (front[k].Close? || front[k].Fail?) { assert events[k] == front[k]; }
  }

  // ---------- the promises of the queue ----------

  lemma StepConserves<T, E>(s: State<T, E>, event: Event<T, E>)
    ensures var s' := Step(s, event);
      s'.yielded + s'.buffer == s.yielded + s.buffer + if event.Push? && s.Open() then [event.value] else []
  {
    if s.buffer != [] { assert s.buffer == [s.buffer[0]] + s.buffer[1..]; }
  }

  /** No input is lost, invented or reordered, whatever the interleaving and however many consumers there are. */
  lemma {:induction false} NothingIsLost<T(!new), E(!new)>(events: seq<Event<T, E>>)
    ensures Run(events).yielded + Run(events).buffer == Accepted(events)
  {
    hide Step;
    if events == [] {
    } else {
      var front, last := events[..|events| - 1], events[|events| - 1];
      NothingIsLost(front);
      RunIsSound(front);
      StepConserves(Run(front), last);
    }
  }

  /** A consumer ends or throws only with every accepted value delivered; what it throws is the first failure. */
  lemma DrainedBeforeTheEnd<T(!new), E(!new)>(events: seq<Event<T, E>>, c: nat)
    requires c < |Run(events).consumers|
    ensures var phase := Run(events).consumers[c];
      && (phase.Done() ==> ClosedIn(events) && Run(events).yielded == Accepted(events))
      && (phase.Threw? ==> FirstFailure(events) == Some(phase.error))
  {
    RunIsSound(events);
    NothingIsLost(events);
    assert Through(Run(events), Run(events).consumers[c]);
  }

  /** It ends without an error exactly when nothing failed before that moment. */
  lemma EndsOrThrows<T(!new), E(!new)>(events: seq<Event<T, E>>, event: Event<T, E>, c: nat)
    requires c < |Run(events).consumers| && !Run(events).consumers[c].Done()
    requires Run(events + [event]).consumers[c].Done()
    ensures Run(events + [event]).consumers[c] ==
      match FirstFailure(events) case Some(e) => Threw(e) case None => Ended
  {
    RunIsSound(events);
    RunSnoc(events, event);
  }

  lemma StepCountsConsumers<T, E>(s: State<T, E>, event: Event<T, E>)
    ensures |Step(s, event).consumers| == |s.consumers| + if event.Iterate? then 1 else 0
  {}

  lemma {:induction false} ConsumersAreCounted<T, E>(events: seq<Event<T, E>>)
    ensures |Run(events).consumers| == Consumers(events)
  {
    hide Step;
    if events == [] {
    } else {
      var front := events[..|events| - 1];
      ConsumersAreCounted(front);
      StepCountsConsumers(Run(front), events[|events| - 1]);
    }
  }

  /** No lost wake-up: while the only consumer waits there is nothing to take, and the next wake is its own. */
  lemma {:induction false} NoLostWakeUp<T(!new), E(!new)>(events: seq<Event<T, E>>)
    requires Consumers(events) == 1
    ensures var s := Run(events);
      |s.consumers| == 1 && (s.consumers[0].Parked? ==> s.notify == Some(0) && s.buffer == [] && !ClosedIn(events))
  {
    ConsumersAreCounted(events);
    RunIsSound(events);
    var front := events[..|events| - 1];
    ConsumersAreCounted(front);
    if Consumers(front) == 1 { NoLostWakeUp(front); }
    RunIsSound(front);
  }

  // ---------- any number of consumers: exactly when no wake-up is lost ----------

  /** Every waiting consumer is the one that the next wake resumes. */
  ghost predicate AllReachable<T, E>(s: State<T, E>)
  {
    forall c :: 0 <= c < |s.consumers| && s.consumers[c].Parked? ==> s.notify == Some(c)
  }

  /** A consumer begins to wait although another one is waiting already. */
  ghost predicate Overwrites<T, E>(s: State<T, E>, event: Event<T, E>)
  {
    && s.notify.Some?
    && (|| (event.Pull? && event.consumer < |s.consumers| && s.consumers[event.consumer].Idle?)
        || (event.Resume? && event.consumer < |s.consumers| && s.consumers[event.consumer].Woken?))
  }

  /** A step loses a wait exactly when it overwrites one. */
  lemma StepReaches<T, E>(s: State<T, E>, event: Event<T, E>)
    requires Sound(s) && AllReachable(s)
    ensures AllReachable(Step(s, event)) <==> !Overwrites(s, event)
  {
    var s' := Step(s, event);
    if Overwrites(s, event) { assert s'.consumers[s.notify.value].Parked? && s'.notify == Some(event.consumer); }
  }

  ghost predicate ReachableSoFar<T, E>(events: seq<Event<T, E>>)
  {
    forall k :: 0 <= k <= |events| ==> AllReachable(Run(events[..k]))
  }

  ghost predicate NeverOverwrites<T, E>(events: seq<Event<T, E>>)
  {
    forall k :: 0 <= k < |events| ==> !Overwrites(Run(events[..k]), events[k])
  }

  /**
   For every run and any number of consumers: no wait is ever lost exactly when no consumer begins to wait while
   another one is waiting.
   */
  lemma {:induction false} NoWaitIsLostIff<T(!new), E(!new)>(events: seq<Event<T, E>>)
    ensures ReachableSoFar(events) <==> NeverOverwrites(events)
  {
    hide Step, AllReachable, Overwrites, ReachableSoFar, NeverOverwrites, Sound;
    if events == [] {
      NothingLostYet<T, E>();
    } else {
      var front, last := events[..|events| - 1], events[|events| - 1];
      assert events == front + [last];
      NoWaitIsLostIff(front);
      RunIsSound(front);
      ReachableSnoc(front, last);
      OverwritesSnoc(front, last);
      ReachableNow(front);
      if AllReachable(Run(front)) { StepReaches(Run(front), last); }
    }
  }

  lemma NothingLostYet<T, E>()
    ensures ReachableSoFar<T, E>([]) && NeverOverwrites<T, E>([])
  {
    assert AllReachable(Run<T, E>([]));
  }

  lemma ReachableNow<T, E>(events: seq<Event<T, E>>)
    ensures ReachableSoFar(events) ==> AllReachable(Run(events))
  {
    assert events[..|events|] == events;
  }

  lemma ReachableSnoc<T, E>(front: seq<Event<T, E>>, last: Event<T, E>)
    ensures ReachableSoFar(front + [last]) <==> ReachableSoFar(front) && AllReachable(Step(Run(front), last))
  {
    hide Run, AllReachable, Step;
    var events := front + [last];
    RunSnoc(front, last);
    assert events[..|events|] == events;
    forall k | 0 <= k <= |front| ensures events[..k] == front[..k] {}
    if ReachableSoFar(events) {
      forall k | 0 <= k <= |front| ensures AllReachable(Run(front[..k])) { assert AllReachable(Run(events[..k])); }
      assert AllReachable(Run(events[..|events|]));
    }
  }

  lemma OverwritesSnoc<T, E>(front: seq<Event<T, E>>, last: Event<T, E>)
    ensures NeverOverwrites(front + [last]) <==> NeverOverwrites(front) && !Overwrites(Run(front), last)
  {
    hide Run, Overwrites;
    var events := front + [last];
    assert events[..|front|] == front;
    forall k | 0 <= k < |front| ensures events[..k] == front[..k] && events[k] == front[k] {}
    if NeverOverwrites(events) {
      forall k | 0 <= k < |front| ensures !Overwrites(Run(front[..k]), front[k]) {
        assert !Overwrites(Run(events[..k]), events[k]);
      }
      assert !Overwrites(Run(events[..|front|]), events[|front|]);
    }
  }

  /** With two consumers a wait is overwritten: the first still waits after the queue was closed. */
  lemma TwoConsumersLoseAWakeUp()
    ensures var events: seq<Event<int, int>> := [Iterate, Iterate, Pull(0), Pull(1), Close];
      var s := Run(events);
      s.consumers == [Parked, Woken] && s.notify == None && s.closed
  {
    var none: seq<Event<int, int>> := [];
    var one, two := none + [Iterate], none + [Iterate] + [Iterate];
    var three := two + [Pull(0)];
    var four := three + [Pull(1)];
    RunSnoc(none, Iterate);
    RunSnoc(one, Iterate);
    assert Run(two).consumers == [Idle, Idle];
    RunSnoc(two, Pull(0));
    RunSnoc(three, Pull(1));
    assert Run(four) == Start().(consumers := [Parked, Parked], notify := Some(1));
    RunSnoc(four, Close);
    assert four + [Close] == [Iterate, Iterate, Pull(0), Pull(1), Close];
  }

  lemma RunSnoc<T, E>(front: seq<Event<T, E>>, last: Event<T, E>)
    ensures Run(front + [last]) == Step(Run(front), last)
  {
    assert (front + [last])[..|front|] == front;
  }

  // ---------- everything arrives ----------

  /** The consumer resumes if it was woken and asks for the next value if it is idle, `n` times over. */
  function KeepAsking<T, E>(s: State<T, E>, n: nat): State<T, E>
    decreases n
  {
    if n == 0 then s else KeepAsking(Step(Step(s, Resume(0)), Pull(0)), n - 1)
  }

  /** How the only consumer stands once it has received everything. */
  function Standing<T, E>(s: State<T, E>): Phase<E>
    requires |s.consumers| == 1
  {
    if s.consumers[0].Done() then s.consumers[0]
    else match s.failure
      case Some(e) => Threw(e)
      case None => if s.closed then Ended else Parked
  }

  /** From any point of any run, the only consumer, asking often enough, receives everything that was accepted; then
      it throws the first failure, ends if the queue was closed, and else waits. */
  lemma EverythingArrives<T(!new), E(!new)>(events: seq<Event<T, E>>, n: nat)
    requires Consumers(events) == 1 && n > |Run(events).buffer|
    ensures var s, was := KeepAsking(Run(events), n), Run(events).consumers;
      |was| == |s.consumers| == 1 && s.yielded == Accepted(events) && s.consumers[0] ==
        if was[0].Done() then was[0]
        else match FirstFailure(events)
          case Some(e) => Threw(e)
          case None => if ClosedIn(events) then Ended else Parked
  {
    NoLostWakeUp(events);
    NothingIsLost(events);
    RunIsSound(events);
    assert Through(Run(events), Run(events).consumers[0]);
    AskingDrains(Run(events), n);
  }

  /** The only consumer, with nothing left to take if it is through or waits. */
  ghost predicate Alone<T, E>(s: State<T, E>)
  {
    && |s.consumers| == 1 && (s.failure.Some? ==> s.closed)
    && (s.consumers[0].Done() ==> s.buffer == [])
    && (s.consumers[0].Parked? ==> s.buffer == [] && s.Open())
  }

  /** One ask of the only consumer. */
  lemma AskTakes<T, E>(s: State<T, E>)
    requires Alone(s)
    ensures var s' := Step(s, Resume(0));
      && Alone(s') && Standing(s') == Standing(s) && s'.yielded + s'.buffer == s.yielded + s.buffer
      && |s'.buffer| <= |s.buffer| && !s'.consumers[0].Woken?
      && (s.consumers[0] == Standing(s) ==> s'.consumers[0] == Standing(s))
    ensures var s' := Step(s, Pull(0));
      && Alone(s') && Standing(s') == Standing(s) && s'.yielded + s'.buffer == s.yielded + s.buffer
      && |s'.buffer| <= |s.buffer| && (s.consumers[0] == Standing(s) ==> s'.consumers[0] == Standing(s))
      && (s.consumers[0].Idle? ==> |s'.buffer| < |s.buffer| || s'.consumers[0] == Standing(s))
      && (s.consumers[0].Parked? ==> s.consumers[0] == Standing(s))
  {
    StepConserves(s, Resume(0));
    StepConserves(s, Pull(0));
  }

  lemma {:induction false} AskingDrains<T, E>(s: State<T, E>, n: nat)
    requires Alone(s) && (n > |s.buffer| || s.consumers[0] == Standing(s))
    ensures var s' := KeepAsking(s, n);
      |s'.consumers| == 1 && s'.yielded == s.yielded + s.buffer && s'.consumers[0] == Standing(s)
    decreases n
  {
    hide Step;
    if n == 0 {
      assert s.buffer == [] && s.yielded + [] == s.yielded;
    } else {
      var first := Step(s, Resume(0));
      AskTakes(s);
      AskTakes(first);
      AskingDrains(Step(first, Pull(0)), n - 1);
    }
  }

  // ---------- every single turn ----------

  /** The consumer takes its turn: it is idle and asks, or was woken and continues. */
  predicate TakesTurn<T, E>(s: State<T, E>, event: Event<T, E>, c: nat)
  {
    c < |s.consumers| &&
    ((s.consumers[c].Idle? && event == Pull(c)) || (s.consumers[c].Woken? && event == Resume(c)))
  }

  /**
   In every run, open, closed or failed, and for any of its consumers: a turn hands out the next accepted value if one
   is left; else it throws the first failure, ends if the queue was closed, and else waits to be woken.
   */
  lemma TurnTakesTheNext<T(!new), E(!new)>(events: seq<Event<T, E>>, event: Event<T, E>, c: nat)
    requires TakesTurn(Run(events), event, c)
    ensures var s, s', all := Run(events), Run(events + [event]), Accepted(events);
      && |s.yielded| <= |all| && |s'.consumers| == |s.consumers|
      && if |s.yielded| < |all| then s'.yielded == all[..|s.yielded| + 1] && s'.consumers[c] == Idle
         else
           && s'.yielded == all
           && match FirstFailure(events)
              case Some(e) => s'.consumers[c] == Threw(e)
              case None =>
                if ClosedIn(events) then s'.consumers[c] == Ended
                else s'.consumers[c] == Parked && s'.notify == Some(c)
  {
    RunIsSound(events);
    NothingIsLost(events);
    RunSnoc(events, event);
    var s, all := Run(events), Accepted(events);
    assert all == s.yielded + s.buffer;
    if s.buffer != [] {
      assert all[..|s.yielded| + 1] == s.yielded + [s.buffer[0]];
    } else {
      assert s.yielded + [] == s.yielded;
    }
  }

  /** In every run: a push that is accepted while a consumer waits wakes it, and so do a close and a failure. */
  lemma WaitingIsWoken<T(!new), E(!new)>(events: seq<Event<T, E>>, event: Event<T, E>)
    requires Run(events).notify.Some? && (event.Push? || event.Close? || event.Fail?)
    ensures var s, s' := Run(events), Run(events + [event]);
      s.notify.value < |s.consumers| && |s'.consumers| == |s.consumers|
      && s'.consumers[s.notify.value] == Woken && s'.notify == None
  {
    RunIsSound(events);
    RunSnoc(events, event);
  }

  // ---------- the code ----------

  class InputQueue<T, E> {
    var buffer: seq<T>
    var closed: bool
    var failure: Option<E>
    var notify: Option<nat>
    var consumers: seq<Phase<E>>
    var yielded: seq<T>

    ghost function Now(): State<T, E>
      reads this
    {
      State(buffer, closed, failure, notify, consumers, yielded)
    }

    constructor ()
      ensures Now() == Start()
    {
      buffer, closed, failure, notify, consumers, yielded := [], false, None, None, [], [];
    }

    method Wake()
      modifies this
      ensures Now() == Notified(old(Now()))
    {
      var resume := notify;
      if resume.Some? {
        notify := None;
        if resume.value < |consumers| { consumers := consumers[resume.value := Woken]; }
      }
    }

    method Push(value: T)
      modifies this
      ensures Now() == Step(old(Now()), Event.Push(value))
    {
      if closed || failure.Some? { return; }
      buffer := buffer + [value];
      Wake();
    }

    method Close()
      modifies this
      ensures Now() == Step(old(Now()), Event.Close)
    {
      closed := true;
      Wake();
    }

    method Fail(error: E)
      modifies this
      ensures Now() == Step(old(Now()), Event.Fail(error))
    {
      if failure.None? { failure := Some(error); }
      closed := true;
      Wake();
    }

    method Iterate() returns (consumer: nat)
      modifies this
      ensures consumer == |old(consumers)| && Now() == Step(old(Now()), Event.Iterate)
    {
      consumer := |consumers|;
      consumers := consumers + [Idle];
    }

    /** One turn of the consumer's loop, after `next()` was called or its wait was over. */
    method Advance(consumer: nat)
      requires consumer < |consumers| && (consumers[consumer].Idle? || consumers[consumer].Woken?)
      modifies this
      ensures Now() == Step(old(Now()), if old(consumers)[consumer].Idle? then Pull(consumer) else Resume(consumer))
    {
      if |buffer| > 0 {
        var value := buffer[0];
        buffer := buffer[1..];
        yielded := yielded + [value];
        consumers := consumers[consumer := Idle];
        return;
      }
      if failure.Some? {
        consumers := consumers[consumer := Threw(failure.value)];
        return;
      }
      if closed {
        consumers := consumers[consumer := Ended];
        return;
      }
      notify := Some(consumer);
      consumers := consumers[consumer := Parked];
    }
  }
}
