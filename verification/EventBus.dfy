/**
 The event bus life cycle as a step system. A step is one stretch of code between two awaits: a call of `start`,
 `stop` or `publish` up to its first await, or the continuation after one. Deliveries, handler completions and
 the adapter's answers arrive in any order; lemmas quantify over every run.

 The adapter is assumed to deliver only between a successful connect and the end of a disconnect.
 */
module EventBuses {

  /** Where a call of `start` is waiting. */
  datatype StartPhase = Idle | Connecting | Subscribing | CleaningUp | StartDisconnecting

  /** Where a running `stop` body is waiting, and for which handlers. */
  datatype StopPhase =
    | Unsubscribing
    | Draining(waitingFor: set<nat>)
    | Aborting(waitingFor: set<nat>)
    | StopDisconnecting

  datatype Config = Config(hasTopics: bool, drains: bool)  // `drains`: the drain timeout is positive

  datatype Bus = Bus(
    started: bool, starting: bool, stopping: bool, draining: bool,
    stopPromise: bool,        // set while `stop` calls join a running body
    connected: bool,          // the adapter's side
    subscriptions: nat,
    start: StartPhase,
    blocked: nat,             // `stop` calls waiting for a pending `start`
    ready: nat,               // `stop` calls whose `start` has settled and that are about to go on
    bodies: seq<StopPhase>,   // running `stop` bodies
    inFlight: set<nat>,       // tracked handler promises
    running: set<nat>,        // admitted handlers that have not settled
    admitted: nat)            // handlers admitted so far; their numbers are 0 .. admitted

  datatype Step =
    | Start
    | Connected(topicsOk: bool)
    | ConnectFailed
    | Subscribed
    | SubscribeFailed
    | CleanedUp
    | StartDisconnected
    | Stop
    | WaiterResumes
    | Unsubscribed(body: nat)
    | DrainWakes(body: nat, expired: bool)
    | AbortSettled(body: nat)
    | StopDisconnected(body: nat)
    | Deliver(routed: bool)
    | HandlerSettles(handler: nat)
    | HandlerRemoved(handler: nat)
    | Publish

  const INITIAL := Bus(false, false, false, false, false, false, 0, Idle, 0, 0, [], {}, {}, 0)

  predicate Enabled(s: Bus, e: Step)
  {
    match e
    case Start => true
    case Connected(_) => s.start == Connecting
    case ConnectFailed => s.start == Connecting
    case Subscribed => s.start == Subscribing
    case SubscribeFailed => s.start == Subscribing
    case CleanedUp => s.start == CleaningUp
    case StartDisconnected => s.start == StartDisconnecting
    case Stop => true
    case WaiterResumes => s.ready > 0
    case Unsubscribed(k) => k < |s.bodies| && s.bodies[k] == Unsubscribing
    case DrainWakes(k, expired) =>
      k < |s.bodies| && s.bodies[k].Draining? && (expired || s.bodies[k].waitingFor !! s.running)
    case AbortSettled(k) => k < |s.bodies| && s.bodies[k].Aborting? && s.bodies[k].waitingFor !! s.running
    case StopDisconnected(k) => k < |s.bodies| && s.bodies[k] == StopDisconnecting
    case Deliver(_) => s.connected
    case HandlerSettles(h) => h in s.running
    case HandlerRemoved(h) => h in s.inFlight && h !in s.running
    case Publish => true
  }

  /** `start` has come to its end: the flag drops and the waiting `stop` calls get ready. */
  function StartEnds(s: Bus): Bus
  {
    s.(starting := false, start := Idle, ready := s.ready + s.blocked, blocked := 0)
  }

  /** The `stop` body up to its first await. */
  function StopBegins(s: Bus): Bus
  {
    s.(stopping := true, draining := true, stopPromise := true, bodies := s.bodies + [Unsubscribing])
  }

  /** A `stop` body goes on, after unsubscribing or after a wake-up of the drain loop. */
  function StopContinues(c: Config, s: Bus, k: nat, expired: bool): Bus
    requires k < |s.bodies|
  {
    s.(bodies := s.bodies[k :=
      if s.inFlight == {} then StopDisconnecting
      else if expired || !c.drains then Aborting(s.inFlight)
      else Draining(s.inFlight)])
  }

  function Apply(c: Config, s: Bus, e: Step): Bus
    requires Enabled(s, e)
  {
    match e
    case Start => if s.started || s.starting || s.stopping then s else s.(starting := true, start := Connecting)
    case Connected(topicsOk) =>
      var now := s.(connected := true);
      if !topicsOk then now.(start := CleaningUp)
      else if c.hasTopics then now.(start := Subscribing)
      else StartEnds(now.(started := true))
    case ConnectFailed => s.(start := CleaningUp)
    case Subscribed => StartEnds(s.(subscriptions := s.subscriptions + 1, started := true))
    case SubscribeFailed => s.(start := CleaningUp)
    case CleanedUp => s.(subscriptions := 0, start := StartDisconnecting)
    case StartDisconnected => StartEnds(s.(connected := false))
    case Stop =>
      if s.stopPromise then s
      else if s.starting then s.(blocked := s.blocked + 1)
      else if !s.started then s
      else StopBegins(s)
    case WaiterResumes =>
      var now := s.(ready := s.ready - 1);
      // no second look at the promise of a body that is already running
      if !s.started then now else StopBegins(now)
    case Unsubscribed(k) => StopContinues(c, s.(subscriptions := 0), k, false)
    case DrainWakes(k, expired) => StopContinues(c, s, k, expired)
    case AbortSettled(k) => s.(inFlight := {}, bodies := s.bodies[k := StopDisconnecting])
    case StopDisconnected(k) =>
      s.(connected := false, started := false, stopping := false, draining := false, stopPromise := false,
         bodies := s.bodies[..k] + s.bodies[k + 1..])
    case Deliver(routed) =>
      if !routed || s.draining then s
      else s.(inFlight := s.inFlight + {s.admitted}, running := s.running + {s.admitted}, admitted := s.admitted + 1)
    case HandlerSettles(h) => s.(running := s.running - {h})
    case HandlerRemoved(h) => s.(inFlight := s.inFlight - {h})
    case Publish => s
  }

  /** The gate of `publish`. */
  predicate AcceptsPublish(s: Bus) { s.started && !s.stopping }

  // ---------- runs ----------

  ghost predicate Legal(c: Config, steps: seq<Step>)
  {
    steps == [] || (Legal(c, steps[..|steps| - 1]) && Enabled(After(c, steps[..|steps| - 1]), steps[|steps| - 1]))
  }

  ghost function After(c: Config, steps: seq<Step>): Bus
  {
    if steps == [] then INITIAL else
    var s := After(c, steps[..|steps| - 1]);
    if Enabled(s, steps[|steps| - 1]) then Apply(c, s, steps[|steps| - 1]) else s
  }

  /** A waiting `stop` call goes on although a `stop` body is running. */
  predicate Overlaps(s: Bus, e: Step) { e == WaiterResumes && s.started && s.bodies != [] }

  /** No `stop` call that waited for `start` goes on while another `stop` is under way. */
  ghost predicate Guarded(c: Config, steps: seq<Step>)
  {
    forall k :: 0 <= k < |steps| ==> !Overlaps(After(c, steps[..k]), steps[k])
  }

  /** The caller's side of it: no `stop` is issued while an earlier `stop` still waits for `start`. */
  ghost predicate OneStopAtATime(c: Config, steps: seq<Step>)
  {
    forall k :: 0 <= k < |steps| && steps[k] == Stop ==>
      After(c, steps[..k]).blocked + After(c, steps[..k]).ready == 0
  }

  /** A `start` is accepted although a `stop` body is still running. */
  predicate StartsEarly(s: Bus, e: Step)
  {
    e == Start && !s.started && !s.starting && !s.stopping && s.bodies != []
  }

  /** No `start` is accepted while a `stop` body is still running. */
  ghost predicate Calm(c: Config, steps: seq<Step>)
  {
    forall k :: 0 <= k < |steps| ==> !StartsEarly(After(c, steps[..k]), steps[k])
  }

  // ---------- the invariant of calm runs ----------

  ghost predicate Phases(s: Bus)
  {
    && (s.stopping ==> s.started && s.bodies != []) && s.draining == s.stopping && s.stopPromise == s.stopping
    && (s.started && s.bodies != [] ==> s.stopping)
    && (s.starting <==> s.start != Idle)
    && (s.starting ==> !s.started && s.bodies == [])
    && (s.blocked > 0 ==> s.starting)
    && (s.started ==> s.connected)
    && (!s.started && !s.starting ==> s.subscriptions == 0 && !s.connected)
    && (s.start == Connecting || s.start == Subscribing || s.start == StartDisconnecting ==> s.subscriptions == 0)
    && (s.start == Connecting ==> !s.connected)
    && (s.start == Subscribing ==> s.connected)
  }

  /** What a running `stop` body waits for covers all that is tracked. */
  ghost predicate BodyCovers(s: Bus, body: StopPhase)
  {
    match body
    case Unsubscribing => true
    case Draining(waitingFor) => s.inFlight <= waitingFor && s.subscriptions == 0
    case Aborting(waitingFor) => s.inFlight <= waitingFor && s.subscriptions == 0
    case StopDisconnecting => s.inFlight == {} && s.subscriptions == 0
  }

  ghost predicate Handlers(s: Bus)
  {
    && s.running <= s.inFlight
    && (forall h :: h in s.inFlight ==> h < s.admitted)
    && (forall k :: 0 <= k < |s.bodies| ==> BodyCovers(s, s.bodies[k]))
  }

  lemma StepKeepsPhases(c: Config, s: Bus, e: Step)
    requires Phases(s) && Handlers(s) && Enabled(s, e) && !StartsEarly(s, e)
    ensures Phases(Apply(c, s, e))
  {
    if e.StopDisconnected? { assert BodyCovers(s, s.bodies[e.body]); }
  }

  lemma StepKeepsHandlers(c: Config, s: Bus, e: Step)
    requires Phases(s) && Handlers(s) && Enabled(s, e) && !StartsEarly(s, e)
    ensures Handlers(Apply(c, s, e))
  {
    var s2 := Apply(c, s, e);
    if e.AbortSettled? {
      assert BodyCovers(s, s.bodies[e.body]);
      assert s.running == {};
    }
    forall k | 0 <= k < |s2.bodies| ensures BodyCovers(s2, s2.bodies[k]) {
      if e.StopDisconnected? {
        var j := if k < e.body then k else k + 1;
        assert s2.bodies[k] == s.bodies[j] && BodyCovers(s, s.bodies[j]);
      } else if k < |s.bodies| {
        assert BodyCovers(s, s.bodies[k]);
      }
    }
  }

  lemma {:induction false} CalmKeeps(c: Config, steps: seq<Step>)
    requires Legal(c, steps) && Calm(c, steps)
    ensures Phases(After(c, steps)) && Handlers(After(c, steps))
  {
    hide Apply, Enabled, StartsEarly, Phases, Handlers;
    if steps == [] {
      InitialIsSound(c);
    } else {
      var front := steps[..|steps| - 1];
      CalmFront(c, steps);
      CalmKeeps(c, front);
      StepKeepsPhases(c, After(c, front), steps[|steps| - 1]);
      StepKeepsHandlers(c, After(c, front), steps[|steps| - 1]);
    }
  }

  lemma InitialIsSound(c: Config)
    ensures Phases(After(c, [])) && Handlers(After(c, []))
  {}

  lemma CalmFront(c: Config, steps: seq<Step>)
    requires Calm(c, steps) && steps != []
    ensures Calm(c, steps[..|steps| - 1])
    ensures !StartsEarly(After(c, steps[..|steps| - 1]), steps[|steps| - 1])
  {
    hide After, StartsEarly;
    var front := steps[..|steps| - 1];
    forall k | 0 <= k < |front| ensures !StartsEarly(After(c, front[..k]), front[k]) {
      assert front[..k] == steps[..k] && front[k] == steps[k];
    }
  }

  lemma CalmBack(c: Config, steps: seq<Step>)
    requires steps != [] && Calm(c, steps[..|steps| - 1])
    requires !StartsEarly(After(c, steps[..|steps| - 1]), steps[|steps| - 1])
    ensures Calm(c, steps)
  {
    hide After, StartsEarly;
    var front := steps[..|steps| - 1];
    forall k | 0 <= k < |steps| ensures !StartsEarly(After(c, steps[..k]), steps[k]) {
      if k < |front| { assert front[..k] == steps[..k] && front[k] == steps[k]; } else { assert steps[..k] == front; }
    }
  }

  // ---------- guarded runs: one `stop` body at most ----------

  /** At most one `stop` body runs, and while it does the bus is stopping. */
  ghost predicate OneBody(s: Bus) { |s.bodies| <= 1 && (s.bodies != [] ==> s.stopping) }

  lemma StepKeepsOneBody(c: Config, s: Bus, e: Step)
    requires Phases(s) && OneBody(s) && Enabled(s, e) && !Overlaps(s, e)
    ensures OneBody(Apply(c, s, e)) && !StartsEarly(s, e)
  {}

  /** Guarded runs are calm. */
  lemma {:induction false} GuardedKeeps(c: Config, steps: seq<Step>)
    requires Legal(c, steps) && Guarded(c, steps)
    ensures Calm(c, steps) && OneBody(After(c, steps))
    ensures Phases(After(c, steps)) && Handlers(After(c, steps))
  {
    hide Apply, Enabled, StartsEarly, Overlaps, Calm, Guarded, Phases, Handlers;
    if steps == [] {
      NothingStartedEarly(c);
    } else {
      var front := steps[..|steps| - 1];
      GuardedFront(c, steps);
      GuardedKeeps(c, front);
      StepKeepsOneBody(c, After(c, front), steps[|steps| - 1]);
      CalmBack(c, steps);
    }
    CalmKeeps(c, steps);
  }

  lemma NothingStartedEarly(c: Config)
    ensures Calm(c, []) && OneBody(After(c, []))
  {}

  lemma GuardedFront(c: Config, steps: seq<Step>)
    requires Guarded(c, steps) && steps != []
    ensures Guarded(c, steps[..|steps| - 1])
    ensures !Overlaps(After(c, steps[..|steps| - 1]), steps[|steps| - 1])
  {
    hide After, Overlaps;
    var front := steps[..|steps| - 1];
    forall k | 0 <= k < |front| ensures !Overlaps(After(c, front[..k]), front[k]) {
      assert front[..k] == steps[..k] && front[k] == steps[k];
    }
  }

  // ---------- what calm runs guarantee ----------

  /**
   A publish is accepted only while the adapter is connected and neither `start` nor `stop` is under way; and while
   `stop` disconnects the adapter, every handler ever admitted has settled.
   */
  ghost predicate Safe(s: Bus)
  {
    && (AcceptsPublish(s) ==> s.connected && s.start == Idle && s.bodies == [])
    && (forall k :: 0 <= k < |s.bodies| && s.bodies[k] == StopDisconnecting ==> s.running == {} && s.inFlight == {})
  }

  /** The bus is safe in every run in which no `start` is accepted while a `stop` body is still running. */
  lemma PublishAndStopAreSafe(c: Config, steps: seq<Step>)
    requires Legal(c, steps) && Calm(c, steps)
    ensures Safe(After(c, steps))
  {
    hide After, Legal, Calm;
    CalmKeeps(c, steps);
    var s := After(c, steps);
    forall k | 0 <= k < |s.bodies| && s.bodies[k] == StopDisconnecting ensures s.inFlight == {} {
      assert BodyCovers(s, s.bodies[k]);
    }
  }

  /** What follows an accepted `start` when the adapter connects and subscribes. */
  function Connects(c: Config): seq<Step>
  {
    [Start, Connected(true)] + if c.hasTopics then [Subscribed] else []
  }

  /** And only in those: from any `start` accepted too early, the adapter's success alone leads to an unsafe state. */
  lemma EarlyStartIsUnsafe(c: Config, steps: seq<Step>)
    requires Legal(c, steps) && StartsEarly(After(c, steps), Start)
    ensures Legal(c, steps + Connects(c)) && !Safe(After(c, steps + Connects(c)))
  {
    hide After, Legal;
    var more := Extend(c, steps, After(c, steps), Start);
    more := Extend(c, more, After(c, more), Connected(true));
    if c.hasTopics { more := Extend(c, more, After(c, more), Subscribed); }
    assert steps + Connects(c) == more;
  }

  /** A `start` the bus accepts. */
  predicate Accepts(s: Bus, e: Step) { e == Start && !s.started && !s.starting && !s.stopping }

  /** A run is calm exactly when every `start` accepted in it leads to a safe state if the adapter succeeds. */
  lemma CalmIffStartsAreSafe(c: Config, steps: seq<Step>)
    requires Legal(c, steps)
    ensures Calm(c, steps) <==>
      forall k :: 0 <= k < |steps| && Accepts(After(c, steps[..k]), steps[k]) ==>
        Safe(After(c, steps[..k] + Connects(c)))
  {
    hide Legal, After, Safe;
    if Calm(c, steps) {
      forall k | 0 <= k < |steps| && Accepts(After(c, steps[..k]), steps[k])
        ensures Safe(After(c, steps[..k] + Connects(c)))
      {
        LegalPrefix(c, steps, k);
        CalmPrefix(c, steps, k);
        ConnectsCalmly(c, steps[..k]);
        PublishAndStopAreSafe(c, steps[..k] + Connects(c));
      }
    } else {
      var k :| 0 <= k < |steps| && StartsEarly(After(c, steps[..k]), steps[k]);
      LegalPrefix(c, steps, k);
      EarlyStartIsUnsafe(c, steps[..k]);
      assert Accepts(After(c, steps[..k]), steps[k]);
    }
  }

  lemma CalmPrefix(c: Config, steps: seq<Step>, k: nat)
    requires Calm(c, steps) && k <= |steps|
    ensures Calm(c, steps[..k])
  {
    hide After, StartsEarly;
    var front := steps[..k];
    forall j | 0 <= j < k ensures !StartsEarly(After(c, front[..j]), front[j]) {
      assert front[..j] == steps[..j] && front[j] == steps[j];
    }
  }

  lemma ConnectsCalmly(c: Config, steps: seq<Step>)
    requires Legal(c, steps) && Calm(c, steps)
    requires Accepts(After(c, steps), Start) && !StartsEarly(After(c, steps), Start)
    ensures Legal(c, steps + Connects(c)) && Calm(c, steps + Connects(c))
  {
    hide After, Legal, Calm;
    var more := Extend(c, steps, After(c, steps), Start);
    ExtendCalmly(c, steps, Start);
    var again := Extend(c, more, After(c, more), Connected(true));
    ExtendCalmly(c, more, Connected(true));
    if c.hasTopics {
      more := again;
      again := Extend(c, more, After(c, more), Subscribed);
      ExtendCalmly(c, more, Subscribed);
    }
    assert steps + Connects(c) == again;
  }

  lemma ExtendCalmly(c: Config, steps: seq<Step>, e: Step)
    requires Calm(c, steps) && !StartsEarly(After(c, steps), e)
    ensures Calm(c, steps + [e])
  {
    assert (steps + [e])[..|steps + [e]| - 1] == steps;
    CalmBack(c, steps + [e]);
  }

  lemma DrainStep(c: Config, s: Bus, e: Step)
    requires Enabled(s, e) && s.draining
    ensures var s2 := Apply(c, s, e);
      s2.admitted == s.admitted && s2.running <= s.running && s2.inFlight <= s.inFlight
  {
    match e
    case HandlerSettles(h) =>
    case HandlerRemoved(h) =>
    case AbortSettled(_) =>
    case _ => assert Apply(c, s, e).running == s.running && Apply(c, s, e).inFlight == s.inFlight;
  }

  /** As long as a run goes on draining, no handler is admitted and the tracked set only shrinks, in every run. */
  lemma {:induction false} DrainAdmitsNothing(c: Config, steps: seq<Step>, more: seq<Step>)
    requires Legal(c, steps + more)
    requires forall k :: 0 <= k < |more| ==> After(c, steps + more[..k]).draining
    ensures var s, s2 := After(c, steps), After(c, steps + more);
      s2.admitted == s.admitted && s2.running <= s.running && s2.inFlight <= s.inFlight
  {
    hide Apply, Enabled;
    if more == [] {
      assert steps + more == steps;
    } else {
      var front := more[..|more| - 1];
      assert (steps + more)[..|steps + more| - 1] == steps + front;
      forall k | 0 <= k < |front| ensures After(c, steps + front[..k]).draining { assert front[..k] == more[..k]; }
      DrainAdmitsNothing(c, steps, front);
      assert After(c, steps + more[..|front|]).draining && more[..|front|] == front;
      DrainStep(c, After(c, steps + front), more[|more| - 1]);
    }
  }

  /**
   When a failing `start` comes to its end the bus can be started again: no flag is set, no subscription is left
   and the adapter is disconnected; and the `stop` calls that waited for it find nothing to stop.
   */
  lemma FailedStartIsRestartable(c: Config, steps: seq<Step>)
    requires Legal(c, steps + [StartDisconnected]) && Legal(c, steps) && Calm(c, steps)
    ensures var s := After(c, steps + [StartDisconnected]);
      && !s.started && !s.starting && !s.stopping && !s.draining
      && s.subscriptions == 0 && !s.connected && s.start == Idle
      && Apply(c, s, Start).start == Connecting
      && (s.ready > 0 ==> Apply(c, s, WaiterResumes) == s.(ready := s.ready - 1))
  {
    assert (steps + [StartDisconnected])[..|steps + [StartDisconnected]| - 1] == steps;
    CalmKeeps(c, steps);
  }

  /** After a completed `stop`, too, the bus can be started again, with nothing left running. */
  lemma StoppedIsRestartable(c: Config, steps: seq<Step>, k: nat)
    requires Legal(c, steps + [StopDisconnected(k)]) && Legal(c, steps) && Guarded(c, steps)
    ensures var s := After(c, steps + [StopDisconnected(k)]);
      && !s.started && !s.stopping && !s.draining && s.bodies == [] && s.subscriptions == 0 && !s.connected
      && s.running == {}
      && (!s.starting ==> Apply(c, s, Start).start == Connecting)
  {
    assert (steps + [StopDisconnected(k)])[..|steps + [StopDisconnected(k)]| - 1] == steps;
    GuardedKeeps(c, steps);
    assert BodyCovers(After(c, steps), After(c, steps).bodies[k]);
  }

  // ---------- exactly when two stop bodies run at once ----------

  lemma {:induction false} GuardedFromBodies(c: Config, steps: seq<Step>)
    requires Legal(c, steps)
    requires forall k :: 0 <= k <= |steps| ==> |After(c, steps[..k]).bodies| <= 1
    ensures Guarded(c, steps)
  {
    forall k | 0 <= k < |steps| ensures !Overlaps(After(c, steps[..k]), steps[k]) {
      LegalPrefix(c, steps, k + 1);
      assert steps[..k + 1][..k] == steps[..k];
      assert |After(c, steps[..k + 1]).bodies| <= 1;
    }
  }

  lemma {:induction false} LegalPrefix(c: Config, steps: seq<Step>, k: nat)
    requires Legal(c, steps) && k <= |steps|
    ensures Legal(c, steps[..k])
  {
    if k < |steps| {
      assert steps[..|steps| - 1][..k] == steps[..k];
      LegalPrefix(c, steps[..|steps| - 1], k);
    } else {
      assert steps[..k] == steps;
    }
  }

  /** At most one `stop` body runs at any time exactly in the guarded runs. */
  lemma OneBodyIffGuarded(c: Config, steps: seq<Step>)
    requires Legal(c, steps)
    ensures Guarded(c, steps) <==> forall k :: 0 <= k <= |steps| ==> |After(c, steps[..k]).bodies| <= 1
  {
    if Guarded(c, steps) {
      forall k | 0 <= k <= |steps| ensures |After(c, steps[..k]).bodies| <= 1 {
        LegalPrefix(c, steps, k);
        forall j | 0 <= j < k ensures !Overlaps(After(c, steps[..k][..j]), steps[..k][j]) {
          assert steps[..k][..j] == steps[..j];
        }
        GuardedKeeps(c, steps[..k]);
      }
    }
    if forall k :: 0 <= k <= |steps| ==> |After(c, steps[..k]).bodies| <= 1 { GuardedFromBodies(c, steps); }
  }

  lemma GuardedBack(c: Config, steps: seq<Step>)
    requires steps != [] && Guarded(c, steps[..|steps| - 1])
    requires !Overlaps(After(c, steps[..|steps| - 1]), steps[|steps| - 1])
    ensures Guarded(c, steps)
  {
    hide After;
    var front := steps[..|steps| - 1];
    forall k | 0 <= k < |steps| ensures !Overlaps(After(c, steps[..k]), steps[k]) {
      if k < |front| { assert front[..k] == steps[..k] && front[k] == steps[k]; } else { assert steps[..k] == front; }
    }
  }

  lemma OneStopFront(c: Config, steps: seq<Step>)
    requires steps != [] && OneStopAtATime(c, steps)
    ensures OneStopAtATime(c, steps[..|steps| - 1])
    ensures var s := After(c, steps[..|steps| - 1]); steps[|steps| - 1] == Stop ==> s.blocked + s.ready == 0
  {
    hide After;
    var front := steps[..|steps| - 1];
    forall k | 0 <= k < |front| && front[k] == Stop
      ensures After(c, front[..k]).blocked + After(c, front[..k]).ready == 0
    {
      assert front[..k] == steps[..k];
    }
  }

  /** At most one `stop` waits for `start`, and while it does no `stop` body runs. */
  ghost predicate OneWaiter(s: Bus)
  {
    s.blocked + s.ready <= 1 && (s.blocked + s.ready == 1 ==> s.bodies == [])
  }

  lemma OneWaiterKept(c: Config, s: Bus, e: Step)
    requires Phases(s) && OneBody(s) && OneWaiter(s) && Enabled(s, e)
    requires e == Stop ==> s.blocked + s.ready == 0
    ensures OneWaiter(Apply(c, s, e)) && !Overlaps(s, e)
  {}

  /** A caller that never issues `stop` while an earlier one waits for `start` stays within the guarded runs. */
  lemma {:induction false} OneStopAtATimeIsGuarded(c: Config, steps: seq<Step>)
    requires Legal(c, steps) && OneStopAtATime(c, steps)
    ensures Guarded(c, steps) && OneWaiter(After(c, steps))
  {
    hide Guarded, OneStopAtATime, Phases, Overlaps, OneWaiter, Handlers;
    if steps == [] {
      NothingDone(c);
    } else {
      OneStopFront(c, steps);
      OneStopAtATimeIsGuarded(c, steps[..|steps| - 1]);
      GuardedKeeps(c, steps[..|steps| - 1]);
      OneWaiterKept(c, After(c, steps[..|steps| - 1]), steps[|steps| - 1]);
      GuardedBack(c, steps);
    }
  }

  lemma NothingDone(c: Config)
    ensures Guarded(c, []) && OneWaiter(INITIAL)
  {}

  // ---------- two stops during one start ----------

  lemma Extend(c: Config, steps: seq<Step>, s: Bus, e: Step) returns (more: seq<Step>)
    requires Legal(c, steps) && After(c, steps) == s && Enabled(s, e)
    ensures more == steps + [e] && Legal(c, more) && After(c, more) == Apply(c, s, e)
  {
    more := steps + [e];
    assert more[..|more| - 1] == steps;
  }

  /** Two `stop` calls while `start` is pending: both wait for it. */
  lemma BothBlocked(c: Config) returns (steps: seq<Step>)
    requires c == Config(true, false)
    ensures Legal(c, steps)
    ensures After(c, steps) == Bus(false, true, false, false, false, false, 0, Connecting, 2, 0, [], {}, {}, 0)
  {
    hide After, Legal;
    EmptyRun(c);
    steps := Extend(c, [], INITIAL, Start);
    steps := Extend(c, steps, After(c, steps), Stop);
    steps := Extend(c, steps, After(c, steps), Stop);
  }

  /** The `start` succeeds, and both are about to go on. */
  lemma BothWait(c: Config) returns (steps: seq<Step>)
    requires c == Config(true, false)
    ensures Legal(c, steps)
    ensures After(c, steps) == Bus(true, false, false, false, false, true, 1, Idle, 0, 2, [], {}, {}, 0)
  {
    hide After, Legal;
    steps := BothBlocked(c);
    steps := Extend(c, steps, After(c, steps), Connected(true));
    steps := Extend(c, steps, After(c, steps), Subscribed);
  }

  /** Both find the bus started and begin to stop it. */
  lemma BothBegin(c: Config) returns (steps: seq<Step>)
    requires c == Config(true, false)
    ensures Legal(c, steps)
    ensures After(c, steps)
         == Bus(true, false, true, true, true, true, 1, Idle, 0, 0, [Unsubscribing, Unsubscribing], {}, {}, 0)
  {
    hide After, Legal;
    steps := BothWait(c);
    steps := Extend(c, steps, After(c, steps), WaiterResumes);
    steps := Extend(c, steps, After(c, steps), WaiterResumes);
  }

  lemma EmptyRun(c: Config)
    ensures Legal(c, []) && After(c, []) == INITIAL
  {}

  /** The first body finishes and clears every flag, while the second one still waits for its unsubscribing. */
  lemma OneFinishes(c: Config) returns (steps: seq<Step>)
    requires c == Config(true, false)
    ensures Legal(c, steps)
    ensures After(c, steps) == Bus(false, false, false, false, false, false, 0, Idle, 0, 0, [Unsubscribing], {}, {}, 0)
  {
    hide After, Legal;
    steps := BothBegin(c);
    steps := Extend(c, steps, After(c, steps), Unsubscribed(0));
    steps := Extend(c, steps, After(c, steps), StopDisconnected(0));
    assert [StopDisconnecting, Unsubscribing][..0] + [StopDisconnecting, Unsubscribing][1..] == [Unsubscribing];
  }

  /** The bus is started again. */
  lemma Restarted(c: Config) returns (steps: seq<Step>)
    requires c == Config(true, false)
    ensures Legal(c, steps)
    ensures After(c, steps) == Bus(true, false, false, false, false, true, 1, Idle, 0, 0, [Unsubscribing], {}, {}, 0)
  {
    hide After, Legal;
    steps := OneFinishes(c);
    steps := Extend(c, steps, After(c, steps), Start);
    steps := Extend(c, steps, After(c, steps), Connected(true));
    steps := Extend(c, steps, After(c, steps), Subscribed);
  }

  /**
   Two `stop` calls issued while `start` is pending both pass the check for a running `stop`. The second body
   outlives the first one's clean-up. After a restart it forgets the new subscription without ending it, waits only
   for the handlers it sees, and disconnects the adapter under a handler that came in meanwhile.
   */
  lemma TwoStopsDuringStartOverlap(c: Config) returns (steps: seq<Step>)
    requires c == Config(true, false)
    ensures Legal(c, steps)
    ensures var s := After(c, steps);
      && s.bodies == [StopDisconnecting] && s.running == {1} && AcceptsPublish(s)
      && s.subscriptions == 0 && s.connected
  {
    hide After, Legal;
    steps := Restarted(c);
    steps := Extend(c, steps, After(c, steps), Deliver(true));
    assert After(c, steps).inFlight == {0};
    steps := Extend(c, steps, After(c, steps), Unsubscribed(0));
    steps := Extend(c, steps, After(c, steps), Deliver(true));
    steps := Extend(c, steps, After(c, steps), HandlerSettles(0));
    assert After(c, steps).running == {1};
    steps := Extend(c, steps, After(c, steps), AbortSettled(0));
  }

  // ---------- the code: one method per stretch between two awaits ----------

  class EventBus {
    const config: Config
    var started: bool
    var starting: bool
    var stopping: bool
    var draining: bool
    var stopPromise: bool
    var connected: bool
    var subscriptions: nat
    var start: StartPhase
    var blocked: nat
    var ready: nat
    var bodies: seq<StopPhase>
    var inFlight: set<nat>
    var running: set<nat>
    var admitted: nat

    function View(): Bus reads this
    {
      Bus(started, starting, stopping, draining, stopPromise, connected, subscriptions, start, blocked, ready,
          bodies, inFlight, running, admitted)
    }

    constructor (config: Config)
      ensures this.config == config && View() == INITIAL
    {
      this.config := config;
      started, starting, stopping, draining, stopPromise, connected := false, false, false, false, false, false;
      subscriptions, start, blocked, ready, bodies, inFlight, running, admitted := 0, Idle, 0, 0, [], {}, {}, 0;
    }

    /** `start()`; false means that it threw. */
    method Start() returns (ok: bool)
      modifies this
      ensures View() == Apply(config, old(View()), Step.Start)
      ensures ok == (old(View()) != View())
    {
      if started || starting || stopping { return false; }
      starting := true;
      start := Connecting;  // the adapter has been asked to connect
      return true;
    }

    method EndStart()
      modifies this
      ensures View() == StartEnds(old(View()))
    {
      starting := false;
      start := Idle;
      ready, blocked := ready + blocked, 0;
    }

    /** `adapter.connect` resolved: build the topic maps, which may throw, and subscribe if there are topics. */
    method OnConnected(topicsOk: bool)
      requires start == Connecting
      modifies this
      ensures View() == Apply(config, old(View()), Connected(topicsOk))
    {
      connected := true;
      if !topicsOk {
        start := CleaningUp;
      } else if config.hasTopics {
        start := Subscribing;
      } else {
        started := true;
        EndStart();
      }
    }

    method OnSubscribed()
      requires start == Subscribing
      modifies this
      ensures View() == Apply(config, old(View()), Subscribed)
    {
      subscriptions := subscriptions + 1;
      started := true;
      EndStart();
    }

    /** Connecting or subscribing was rejected: unsubscribe whatever there is. */
    method OnStartRejected()
      requires start == Connecting || start == Subscribing
      modifies this
      ensures View() == Apply(config, old(View()), if old(start) == Connecting then ConnectFailed else SubscribeFailed)
    {
      start := CleaningUp;
    }

    method OnCleanedUp()
      requires start == CleaningUp
      modifies this
      ensures View() == Apply(config, old(View()), CleanedUp)
    {
      subscriptions := 0;
      start := StartDisconnecting;
    }

    /** The disconnect of a failed start has settled, resolved or rejected. */
    method OnStartDisconnected()
      requires start == StartDisconnecting
      modifies this
      ensures View() == Apply(config, old(View()), StartDisconnected)
    {
      connected := false;
      EndStart();
    }

    method BeginStop()
      modifies this
      ensures View() == StopBegins(old(View()))
    {
      stopping := true;
      draining := true;
      stopPromise := true;
      bodies := bodies + [Unsubscribing];
    }

    method Stop()
      modifies this
      ensures View() == Apply(config, old(View()), Step.Stop)
    {
      if stopPromise { return; }
      if starting {
        blocked := blocked + 1;
        return;
      }
      if !started { return; }
      BeginStop();
    }

    /** A `stop` call that waited for `start` goes on. */
    method OnWaiterResumes()
      requires ready > 0
      modifies this
      ensures View() == Apply(config, old(View()), WaiterResumes)
    {
      ready := ready - 1;
      if !started { return; }
      BeginStop();
    }

    method ContinueStop(k: nat, expired: bool)
      requires k < |bodies|
      modifies this
      ensures View() == StopContinues(config, old(View()), k, expired)
    {
      if inFlight == {} {
        bodies := bodies[k := StopDisconnecting];
      } else if expired || !config.drains {
        bodies := bodies[k := Aborting(inFlight)];
      } else {
        bodies := bodies[k := Draining(inFlight)];
      }
    }

    method OnUnsubscribed(k: nat)
      requires Enabled(View(), Unsubscribed(k))
      modifies this
      ensures View() == Apply(config, old(View()), Unsubscribed(k))
    {
      subscriptions := 0;
      ContinueStop(k, false);
    }

    /** The race of the drain loop is decided: by the handlers waited for, or by the deadline. */
    method OnDrainWakes(k: nat, expired: bool)
      requires Enabled(View(), DrainWakes(k, expired))
      modifies this
      ensures View() == Apply(config, old(View()), DrainWakes(k, expired))
    {
      ContinueStop(k, expired);
    }

    method OnAbortSettled(k: nat)
      requires Enabled(View(), AbortSettled(k))
      modifies this
      ensures View() == Apply(config, old(View()), AbortSettled(k))
    {
      inFlight := {};
      bodies := bodies[k := StopDisconnecting];
    }

    /** The disconnect of `stop` has settled; the clean-up runs either way. */
    method OnStopDisconnected(k: nat)
      requires Enabled(View(), StopDisconnected(k))
      modifies this
      ensures View() == Apply(config, old(View()), StopDisconnected(k))
    {
      connected := false;
      started := false;
      stopping := false;
      draining := false;
      stopPromise := false;
      bodies := bodies[..k] + bodies[k + 1..];
    }

    /** The adapter delivers an event; `handled` tells whether its handler was started. */
    method OnDelivery(routed: bool) returns (handled: bool)
      requires connected
      modifies this
      ensures View() == Apply(config, old(View()), Deliver(routed))
      ensures handled <==> admitted == old(admitted) + 1
    {
      if !routed || draining { return false; }
      inFlight := inFlight + {admitted};
      running := running + {admitted};
      admitted := admitted + 1;
      return true;
    }

    method OnHandlerSettled(h: nat)
      requires h in running
      modifies this
      ensures View() == Apply(config, old(View()), HandlerSettles(h))
    {
      running := running - {h};
    }

    method OnHandlerRemoved(h: nat)
      requires h in inFlight && h !in running
      modifies this
      ensures View() == Apply(config, old(View()), HandlerRemoved(h))
    {
      inFlight := inFlight - {h};
    }

    /** `publish()`; false means that it threw before reaching the adapter. */
    method Publish() returns (accepted: bool)
      ensures accepted == AcceptsPublish(View())
    {
      return !(!started || stopping);
    }
  }
}
