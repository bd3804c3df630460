/**
 What the bus does rather than what it avoids: a `start` succeeds or fails for good, a `stop` of a started bus stops
 it and comes to an end, deliveries are admitted, and handlers are aborted only when their time is up.
 */
module BusProgress {

  import opened Collections
  import opened EventBuses

  lemma Extends(c: Config, steps: seq<Step>, e: Step)
    requires Legal(c, steps) && Enabled(After(c, steps), e)
    ensures Legal(c, steps + [e]) && After(c, steps + [e]) == Apply(c, After(c, steps), e)
  {
    var more := Extend(c, steps, After(c, steps), e);
  }

  // ---------- flags, in every run ----------

  ghost predicate Flags(s: Bus)
  {
    s.stopPromise == s.stopping == s.draining && (s.started ==> !s.starting) && (s.starting <==> s.start != Idle)
  }

  lemma StepKeepsFlags(c: Config, s: Bus, e: Step)
    requires Flags(s) && Enabled(s, e)
    ensures Flags(Apply(c, s, e))
  {}

  lemma {:induction false} RunKeepsFlags(c: Config, steps: seq<Step>)
    requires Legal(c, steps)
    ensures Flags(After(c, steps))
  {
    hide Apply, Enabled;
    if steps == [] {
      assert After(c, steps) == INITIAL;
    } else {
      RunKeepsFlags(c, steps[..|steps| - 1]);
      StepKeepsFlags(c, After(c, steps[..|steps| - 1]), steps[|steps| - 1]);
    }
  }

  // ---------- start ----------

  /**
   In every run: where a `start` is accepted, and the adapter connects and subscribes, the bus ends up started,
   connected and accepting publishes, with a subscription if it has topics.
   */
  lemma StartSucceeds(c: Config, steps: seq<Step>)
    requires Legal(c, steps) && Accepts(After(c, steps), Start)
    ensures Legal(c, steps + Connects(c))
    ensures var s, s2 := After(c, steps), After(c, steps + Connects(c));
      && s2.started && s2.connected && s2.start == Idle && AcceptsPublish(s2)
      && s2.subscriptions == s.subscriptions + (if c.hasTopics then 1 else 0)
      && s2.ready == s.ready + s.blocked && s2.blocked == 0
  {
    hide After, Legal;
    RunKeepsFlags(c, steps);
    Extends(c, steps, Start);
    Extends(c, steps + [Start], Connected(true));
    if c.hasTopics {
      Extends(c, steps + [Start] + [Connected(true)], Subscribed);
      assert steps + Connects(c) == steps + [Start] + [Connected(true)] + [Subscribed];
    } else {
      assert steps + Connects(c) == steps + [Start] + [Connected(true)];
    }
  }

  /** In every run: whatever a pending `start` waits for, a failure takes it to its end, not started. */
  lemma StartFails(c: Config, steps: seq<Step>, failure: Step)
    requires Legal(c, steps)
    requires match After(c, steps).start
      case Connecting => failure == ConnectFailed || failure == Connected(false)
      case Subscribing => failure == SubscribeFailed
      case _ => false
    ensures var more := steps + [failure] + [CleanedUp] + [StartDisconnected];
      && Legal(c, more)
      && var s2 := After(c, more);
      && !s2.started && !s2.starting && s2.start == Idle && s2.subscriptions == 0 && !s2.connected && s2.blocked == 0
      && s2.ready == After(c, steps).ready + After(c, steps).blocked
  {
    hide After, Legal;
    RunKeepsFlags(c, steps);
    Extends(c, steps, failure);
    Extends(c, steps + [failure], CleanedUp);
    Extends(c, steps + [failure] + [CleanedUp], StartDisconnected);
  }

  /** In every run: a bus accepts a `start` exactly when it is neither started nor starting nor stopping. */
  lemma StartIsAcceptedIff(c: Config, steps: seq<Step>)
    requires Legal(c, steps)
    ensures Legal(c, steps + [Start])
    ensures var s, s2 := After(c, steps), After(c, steps + [Start]);
      if s.started || s.starting || s.stopping then s2 == s else s2.starting && s2.start == Connecting
  {
    Extends(c, steps, Start);
  }

  // ---------- stop ----------

  /** The bus is stopping: one body more than before, nothing accepted, nothing admitted. */
  ghost predicate BeganToStop(s: Bus, s2: Bus)
  {
    && s2.bodies == s.bodies + [Unsubscribing] && s2.stopping && s2.draining && !AcceptsPublish(s2)
    && s2.inFlight == s.inFlight && s2.running == s.running && s2.connected == s.connected
  }

  /**
   In every run: a `stop` of a bus that accepts publishes begins to stop it at once; one issued while a `start` is
   pending waits for it; any other changes nothing.
   */
  lemma StopStops(c: Config, steps: seq<Step>)
    requires Legal(c, steps)
    ensures Legal(c, steps + [Stop])
    ensures var s, s2 := After(c, steps), After(c, steps + [Stop]);
      if AcceptsPublish(s) then BeganToStop(s, s2)
      else if s.starting && !s.stopping then s2 == s.(blocked := s.blocked + 1)
      else s2 == s
  {
    hide After, Legal;
    RunKeepsFlags(c, steps);
    Extends(c, steps, Stop);
  }

  /** In every run: a `stop` that waited for `start` stops the bus if that succeeded, and else does nothing. */
  lemma WaitingStopStops(c: Config, steps: seq<Step>)
    requires Legal(c, steps) && After(c, steps).ready > 0
    ensures Legal(c, steps + [WaiterResumes])
    ensures var s, s2 := After(c, steps), After(c, steps + [WaiterResumes]);
      && s2.ready == s.ready - 1
      && (if s.started then BeganToStop(s, s2) else s2 == s.(ready := s.ready - 1))
  {
    hide After, Legal;
    Extends(c, steps, WaiterResumes);
  }

  lemma StepKeepsStopping(c: Config, s: Bus, e: Step)
    requires Phases(s) && OneBody(s) && s.stopping && Enabled(s, e) && !Overlaps(s, e) && !e.StopDisconnected?
    ensures Apply(c, s, e).stopping && |Apply(c, s, e).bodies| == 1
  {}

  /**
   In guarded runs this lasts until the body's disconnect is done: till then one body runs and no publish is
   accepted.
   */
  lemma {:induction false} StoppingLasts(c: Config, steps: seq<Step>, more: seq<Step>)
    requires Legal(c, steps + more) && Guarded(c, steps + more) && After(c, steps).stopping
    requires forall k :: 0 <= k < |more| ==> !more[k].StopDisconnected?
    ensures var s := After(c, steps + more);
      s.stopping && s.draining && |s.bodies| == 1 && !AcceptsPublish(s)
  {
    hide Apply, Enabled, Overlaps, Guarded;
    if more == [] {
      assert steps + more == steps;
    } else {
      var front := more[..|more| - 1];
      assert (steps + more)[..|steps + more| - 1] == steps + front;
      GuardedFront(c, steps + more);
      StoppingLasts(c, steps, front);
      GuardedKeeps(c, steps + front);
      StepKeepsStopping(c, After(c, steps + front), more[|more| - 1]);
    }
    GuardedKeeps(c, steps + more);
  }

  // ---------- a stop comes to an end ----------

  /** An answer of the adapter or a handler that `stop` gets ahead with; not a wake-up that only looks and waits. */
  predicate Answer(c: Config, s: Bus, e: Step)
  {
    match e
    case Unsubscribed(_) => true
    case DrainWakes(_, expired) => s.inFlight == {} || expired || !c.drains
    case AbortSettled(_) => true
    case StopDisconnected(_) => true
    case HandlerSettles(_) => true
    case HandlerRemoved(_) => true
    case _ => false
  }

  function PhaseWork(body: StopPhase): nat
  {
    match body
    case Unsubscribing => 4
    case Draining(_) => 3
    case Aborting(_) => 2
    case StopDisconnecting => 1
  }

  /** The answers that a single stop body can still need. */
  function StopWork(s: Bus): nat
  {
    (if s.bodies == [] then 0 else PhaseWork(s.bodies[0])) + |s.running| + |s.inFlight|
  }

  lemma AnswerDoesWork(c: Config, s: Bus, e: Step)
    requires OneBody(s) && Enabled(s, e) && Answer(c, s, e)
    ensures StopWork(Apply(c, s, e)) < StopWork(s)
  {
    var s2 := Apply(c, s, e);
    match e
    case HandlerSettles(h) => ProperSubsetSize(s2.running, s.running, h);
    case HandlerRemoved(h) => ProperSubsetSize(s2.inFlight, s.inFlight, h);
    case _ => SubsetSize(s2.inFlight, s.inFlight);
  }

  /** One that is due while a body runs: handlers first, then the body itself. */
  ghost function NextAnswer(s: Bus): Step
    requires s.bodies != []
  {
    if s.running != {} then var h :| h in s.running; HandlerSettles(h)
    else if s.inFlight != {} then var h :| h in s.inFlight; HandlerRemoved(h)
    else match s.bodies[0]
      case Unsubscribing => Unsubscribed(0)
      case Draining(_) => DrainWakes(0, false)
      case Aborting(_) => AbortSettled(0)
      case StopDisconnecting => StopDisconnected(0)
  }

  lemma NextAnswerIsDue(c: Config, s: Bus)
    requires s.bodies != []
    ensures Enabled(s, NextAnswer(s)) && Answer(c, s, NextAnswer(s))
  {}

  /** In every run: while a stop body runs, an answer of the adapter or of a handler is due. */
  lemma StopIsNeverStuck(c: Config, steps: seq<Step>)
    requires Legal(c, steps) && After(c, steps).bodies != []
    ensures exists e :: Enabled(After(c, steps), e) && Answer(c, After(c, steps), e)
  {
    NextAnswerIsDue(c, After(c, steps));
  }

  /** Answers of the outside that are due, one after the other. */
  ghost predicate AllAnswers(c: Config, steps: seq<Step>, more: seq<Step>)
    decreases |more|
  {
    more == [] ||
    (&& Enabled(After(c, steps), more[0]) && Answer(c, After(c, steps), more[0])
     && AllAnswers(c, steps + [more[0]], more[1..]))
  }

  lemma OtherStepsGuard(c: Config, steps: seq<Step>, e: Step)
    requires Guarded(c, steps) && e != WaiterResumes
    ensures Guarded(c, steps + [e])
  {
    hide After, Guarded;
    assert (steps + [e])[..|steps + [e]| - 1] == steps;
    GuardedBack(c, steps + [e]);
  }

  /** In guarded runs: answers alone cannot go on for ever. */
  lemma {:induction false} AnswersAreFinite(c: Config, steps: seq<Step>, more: seq<Step>)
    requires Legal(c, steps) && Guarded(c, steps) && AllAnswers(c, steps, more)
    ensures Legal(c, steps + more) && |more| + StopWork(After(c, steps + more)) <= StopWork(After(c, steps))
    decreases |more|
  {
    hide Legal, After, Guarded, Answer, Enabled, Apply, StopWork;
    if more == [] {
      assert steps + more == steps;
    } else {
      var e := more[0];
      GuardedKeeps(c, steps);
      AnswerDoesWork(c, After(c, steps), e);
      Extends(c, steps, e);
      NotAWaiter(c, After(c, steps), e);
      OtherStepsGuard(c, steps, e);
      AnswersAreFinite(c, steps + [e], more[1..]);
      assert steps + more == steps + [e] + more[1..];
    }
  }

  lemma LastAnswer(c: Config, s: Bus)
    requires OneBody(s) && Phases(s) && s.bodies != [] && Enabled(s, NextAnswer(s))
    ensures var s2 := Apply(c, s, NextAnswer(s));
      s2.bodies == [] ==> !s2.started && !s2.stopping && !s2.draining && !s2.connected && s2.running == {}
  {}

  /**
   In guarded runs: from every point at which the bus is stopping, answers of the adapter and of handlers alone lead
   to a bus that is stopped and disconnected, with no handler running.
   */
  lemma {:induction false} StopCanFinish(c: Config, steps: seq<Step>) returns (more: seq<Step>)
    requires Legal(c, steps) && Guarded(c, steps) && After(c, steps).bodies != []
    ensures AllAnswers(c, steps, more) && Legal(c, steps + more)
    ensures var s := After(c, steps + more);
      !s.started && !s.stopping && !s.draining && !s.connected && s.bodies == [] && s.running == {}
    decreases StopWork(After(c, steps))
  {
    hide Legal, After, Guarded, Answer, Enabled, Apply;
    var s := After(c, steps);
    var e := NextAnswer(s);
    GuardedKeeps(c, steps);
    NextAnswerIsDue(c, s);
    Extends(c, steps, e);
    AnswerDoesWork(c, s, e);
    LastAnswer(c, s);
    assert steps + [e] + [] == steps + [e] && AllAnswers(c, steps + [e], []);
    if After(c, steps + [e]).bodies == [] {
      more := [e];
    } else {
      NotAWaiter(c, s, e);
      OtherStepsGuard(c, steps, e);
      var rest := StopCanFinish(c, steps + [e]);
      more := [e] + rest;
      assert steps + more == steps + [e] + rest && more[1..] == rest;
    }
  }

  lemma NotAWaiter(c: Config, s: Bus, e: Step)
    requires Answer(c, s, e)
    ensures e != WaiterResumes
  {}

  // ---------- what a stop waits for ----------

  /** After unsubscribing: straight on if nothing is tracked, else drain, or abort without a drain timeout. */
  lemma UnsubscribedGoesOn(c: Config, steps: seq<Step>, k: nat)
    requires Legal(c, steps) && k < |After(c, steps).bodies| && After(c, steps).bodies[k] == Unsubscribing
    ensures Legal(c, steps + [Unsubscribed(k)])
    ensures var s, s2 := After(c, steps), After(c, steps + [Unsubscribed(k)]);
      && |s2.bodies| == |s.bodies| && s2.subscriptions == 0
      && (s2.bodies[k] == StopDisconnecting <==> s.inFlight == {})
      && (s2.bodies[k] == Draining(s.inFlight) <==> s.inFlight != {} && c.drains)
      && (s2.bodies[k] == Aborting(s.inFlight) <==> s.inFlight != {} && !c.drains)
  {
    hide After, Legal;
    Extends(c, steps, Unsubscribed(k));
  }

  /** A draining body is woken before its time is up only when all it waited for have settled; then it waits for the
      rest, and it aborts only when its time is up. */
  lemma DrainGoesOn(c: Config, steps: seq<Step>, k: nat, expired: bool)
    requires Legal(c, steps + [DrainWakes(k, expired)]) && Legal(c, steps) && c.drains
    requires k < |After(c, steps).bodies| && Enabled(After(c, steps), DrainWakes(k, expired))
    ensures var s, s2 := After(c, steps), After(c, steps + [DrainWakes(k, expired)]);
      && s.bodies[k].Draining? && (expired || s.bodies[k].waitingFor !! s.running)
      && |s2.bodies| == |s.bodies|
      && (s2.bodies[k] == StopDisconnecting <==> s.inFlight == {})
      && (s2.bodies[k] == Draining(s.inFlight) <==> s.inFlight != {} && !expired)
      && (s2.bodies[k] == Aborting(s.inFlight) <==> s.inFlight != {} && expired)
  {
    hide After, Legal;
    Extends(c, steps, DrainWakes(k, expired));
  }

  ghost predicate NoneAborts(s: Bus) { forall k :: 0 <= k < |s.bodies| ==> !s.bodies[k].Aborting? }

  lemma StepAborts(c: Config, s: Bus, e: Step)
    requires Enabled(s, e) && NoneAborts(s) && c.drains && (e.DrainWakes? ==> !e.expired)
    ensures NoneAborts(Apply(c, s, e))
  {}

  /** In every run of a bus with a drain timeout: no handler is aborted before the time of some drain was up. */
  lemma {:induction false} NoAbortBeforeItsTime(c: Config, steps: seq<Step>)
    requires Legal(c, steps) && c.drains
    requires forall k :: 0 <= k < |steps| && steps[k].DrainWakes? ==> !steps[k].expired
    ensures NoneAborts(After(c, steps))
  {
    hide Apply, Enabled;
    if steps == [] {
      assert After(c, steps) == INITIAL;
    } else {
      var front := steps[..|steps| - 1];
      forall k | 0 <= k < |front| && front[k].DrainWakes? ensures !front[k].expired { assert front[k] == steps[k]; }
      NoAbortBeforeItsTime(c, front);
      StepAborts(c, After(c, front), steps[|steps| - 1]);
    }
  }

  // ---------- deliveries ----------

  /** In calm runs: a routed delivery is admitted, tracked and run exactly when no stop body runs. */
  lemma DeliveryIsAdmittedIff(c: Config, steps: seq<Step>, routed: bool)
    requires Legal(c, steps) && Calm(c, steps) && After(c, steps).connected
    ensures Legal(c, steps + [Deliver(routed)])
    ensures var s, s2 := After(c, steps), After(c, steps + [Deliver(routed)]);
      if routed && s.bodies == [] then
        && s2.admitted == s.admitted + 1 && s.admitted !in s.inFlight
        && s2.inFlight == s.inFlight + {s.admitted} && s2.running == s.running + {s.admitted}
      else s2 == s
  {
    hide After, Legal, Calm;
    CalmKeeps(c, steps);
    Extends(c, steps, Deliver(routed));
    assert forall h :: h in After(c, steps).inFlight ==> h < After(c, steps).admitted;
  }

  /** In calm runs: publishes are accepted exactly while the bus is started and no stop body runs. */
  lemma PublishIsAcceptedIff(c: Config, steps: seq<Step>)
    requires Legal(c, steps) && Calm(c, steps)
    ensures var s := After(c, steps);
      AcceptsPublish(s) <==> s.connected && s.start == Idle && s.bodies == []
  {
    hide After, Legal, Calm;
    CalmKeeps(c, steps);
  }
}
