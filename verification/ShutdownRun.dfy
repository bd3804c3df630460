/**
 What `executeAll` does after its synchronous stretch, as a step system: modules whose dependencies have
 fulfilled start their hooks, hooks complete or throw in any order, modules settle. A step is one stretch of
 code between two awaits; lemmas quantify over every interleaving.

 A module without dependencies starts its hooks inside the synchronous stretch already. Here that start is an
 ordinary step, enabled from the beginning, so every order the code can produce is among the runs.
 */
module ShutdownRuns {
  import opened Graphs
  import opened Collections

  type Hook = nat  // identity of a hook function

  datatype Phase = Waiting | Running | Fulfilled | Failed

  datatype HookState = Active | Done | Threw

  datatype Run = Run(
    graph: Graph,
    hooks: map<string, seq<Hook>>,
    phase: map<string, Phase>,                // the memoised module promises
    hookState: map<(string, nat), HookState>, // invoked hooks, by module and position
    invoked: seq<(string, nat)>)              // invocations in order

  datatype Step =
    | Start(name: string, throwsAt: nat)      // dependencies fulfilled: invoke the hooks; one may throw at once
    | DependencyFailed(name: string)
    | HookDone(name: string, k: nat)
    | HookThrew(name: string, k: nat)
    | Settle(name: string)

  function HooksOf(r: Run, name: string): seq<Hook> { if name in r.hooks then r.hooks[name] else [] }

  /** The first `n` hooks of a module, as invocation keys. */
  function Keys(name: string, n: nat): seq<(string, nat)> { seq(n, (k: nat) => (name, k)) }

  ghost predicate Initial(r: Run)
  {
    && Acyclic(r.graph)
    && r.hooks.Keys <= r.phase.Keys
    && (forall n :: n in r.phase ==> r.phase[n] == Waiting)
    && (forall n, d :: n in r.phase && d in Deps(r.graph, n) ==> d in r.phase)
    && r.hookState == map[] && r.invoked == []
  }

  predicate Is(r: Run, name: string, phase: Phase) { name in r.phase && r.phase[name] == phase }

  predicate HookIs(r: Run, name: string, k: nat, state: HookState)
  {
    (name, k) in r.hookState && r.hookState[(name, k)] == state
  }

  predicate DepsFulfilled(r: Run, name: string)
  {
    forall d :: d in Deps(r.graph, name) ==> Is(r, d, Fulfilled)
  }

  predicate SomeHookThrew(r: Run, name: string)
  {
    exists k :: 0 <= k < |HooksOf(r, name)| && HookIs(r, name, k, Threw)
  }

  predicate AllHooksDone(r: Run, name: string)
  {
    forall k :: 0 <= k < |HooksOf(r, name)| ==> HookIs(r, name, k, Done)
  }

  predicate Enabled(r: Run, s: Step)
  {
    match s
    case Start(name, throwsAt) =>
      Is(r, name, Waiting) && DepsFulfilled(r, name) && throwsAt <= |HooksOf(r, name)|
    case DependencyFailed(name) =>
      Is(r, name, Waiting) && exists d :: d in Deps(r.graph, name) && Is(r, d, Failed)
    case HookDone(name, k) => HookIs(r, name, k, Active)
    case HookThrew(name, k) => HookIs(r, name, k, Active)
    case Settle(name) => Is(r, name, Running) && (AllHooksDone(r, name) || SomeHookThrew(r, name))
  }

  /**
   Starting a module invokes its hooks in order. A hook that throws synchronously stops the invocations and
   rejects the module on the spot; a module without hooks fulfils on the spot.
   */
  function StartModule(r: Run, name: string, throwsAt: nat): Run
  {
    var n := |HooksOf(r, name)|;
    var count := if throwsAt < n then throwsAt + 1 else n;
    var states := map k: (string, nat) | k in Keys(name, count) :: if k.1 == throwsAt then Threw else Active;
    r.(invoked := r.invoked + Keys(name, count),
       hookState := r.hookState + states,
       phase := r.phase[name := if throwsAt < n then Failed else if n == 0 then Fulfilled else Running])
  }

  function Apply(r: Run, s: Step): Run
  {
    match s
    case Start(name, throwsAt) => StartModule(r, name, throwsAt)
    case DependencyFailed(name) => r.(phase := r.phase[name := Failed])
    case HookDone(name, k) => r.(hookState := r.hookState[(name, k) := Done])
    case HookThrew(name, k) => r.(hookState := r.hookState[(name, k) := Threw])
    case Settle(name) => r.(phase := r.phase[name := if SomeHookThrew(r, name) then Failed else Fulfilled])
  }

  function After(r: Run, steps: seq<Step>): Run
  {
    if steps == [] then r else Apply(After(r, steps[..|steps| - 1]), steps[|steps| - 1])
  }

  /** `steps` is a schedule: every step is enabled when it is taken. */
  predicate Schedule(r: Run, steps: seq<Step>)
  {
    steps == [] ||
    (Schedule(r, steps[..|steps| - 1]) && Enabled(After(r, steps[..|steps| - 1]), steps[|steps| - 1]))
  }

  // ---------- the invariant ----------

  /** What the phase of one module says about its dependencies and hooks. */
  ghost predicate ModuleInvariant(r: Run, n: string)
    requires n in r.phase
  {
    var count := |HooksOf(r, n)|;
    match r.phase[n]
    case Waiting => forall k: nat :: (n, k) !in r.hookState
    case Running => DepsFulfilled(r, n) && forall k: nat :: k < count ==> (n, k) in r.hookState
    case Fulfilled => DepsFulfilled(r, n) && AllHooksDone(r, n)
    case Failed =>
      || ((forall k: nat :: (n, k) !in r.hookState) && exists d :: d in Deps(r.graph, n) && Is(r, d, Failed))
      || (DepsFulfilled(r, n) && SomeHookThrew(r, n))
  }

  ghost predicate Invariant(r: Run)
  {
    && Acyclic(r.graph)
    && r.hooks.Keys <= r.phase.Keys
    && (forall n, d :: n in r.phase && d in Deps(r.graph, n) ==> d in r.phase)
    && (forall n :: n in r.phase ==> ModuleInvariant(r, n))
    && (forall n, k :: (n, k) in r.hookState ==> n in r.phase && k < |HooksOf(r, n)|)
    && Distinct(r.invoked)
    && (forall key :: key in r.invoked <==> key in r.hookState)
  }

  /** `r2` differs from `r` only in module `name` and its hooks, and never takes a settlement back. */
  ghost predicate StepOf(r: Run, r2: Run, name: string)
  {
    && r2.graph == r.graph && r2.hooks == r.hooks && r2.phase.Keys == r.phase.Keys && name in r.phase
    && (forall m :: m in r.phase && m != name ==> r2.phase[m] == r.phase[m])
    && (r.phase[name] == Fulfilled || r.phase[name] == Failed ==> r2.phase[name] == r.phase[name])
    && (forall m, k: nat :: m != name ==>
          && ((m, k) in r2.hookState <==> (m, k) in r.hookState)
          && ((m, k) in r.hookState ==> r2.hookState[(m, k)] == r.hookState[(m, k)]))
  }

  lemma OtherModulesKeep(r: Run, r2: Run, name: string, m: string)
    requires StepOf(r, r2, name) && m in r.phase && m != name && ModuleInvariant(r, m)
    ensures ModuleInvariant(r2, m)
  {
    assert forall d, phase :: Is(r, d, phase) && (phase == Fulfilled || phase == Failed) ==> Is(r2, d, phase);
    assert forall k: nat, state :: HookIs(r, m, k, state) <==> HookIs(r2, m, k, state);
  }

  /** A step keeps the invariant if it keeps the module it is about. */
  lemma StepOfKeeps(r: Run, r2: Run, name: string)
    requires Invariant(r) && StepOf(r, r2, name)
    requires ModuleInvariant(r2, name)
    requires Distinct(r2.invoked) && forall key :: key in r2.invoked <==> key in r2.hookState
    requires forall k: nat :: (name, k) in r2.hookState ==> k < |HooksOf(r, name)|
    ensures Invariant(r2)
  {
    hide Acyclic;
    forall m | m in r2.phase ensures ModuleInvariant(r2, m) {
      if m != name { OtherModulesKeep(r, r2, name, m); }
    }
  }

  lemma KeysHold(name: string, n: nat)
    ensures forall key :: key in Keys(name, n) <==> key.0 == name && key.1 < n
    ensures Distinct(Keys(name, n))
  {
    forall k: nat | k < n ensures (name, k) in Keys(name, n) { assert Keys(name, n)[k] == (name, k); }
  }

  lemma StartedModule(r: Run, name: string, throwsAt: nat)
    requires Is(r, name, Waiting) && ModuleInvariant(r, name) && DepsFulfilled(r, name)
    requires throwsAt <= |HooksOf(r, name)|
    ensures StepOf(r, StartModule(r, name, throwsAt), name)
    ensures ModuleInvariant(StartModule(r, name, throwsAt), name)
  {
    var r2 := StartModule(r, name, throwsAt);
    var n := |HooksOf(r, name)|;
    KeysHold(name, if throwsAt < n then throwsAt + 1 else n);
    assert DepsFulfilled(r2, name);
    if throwsAt < n { assert HookIs(r2, name, throwsAt, Threw); }
  }

  lemma StartKeeps(r: Run, s: Step)
    requires Invariant(r) && Enabled(r, s) && s.Start?
    ensures Invariant(Apply(r, s)) && StepOf(r, Apply(r, s), s.name)
  {
    hide Acyclic, ModuleInvariant, StepOf, DepsFulfilled;
    var n := |HooksOf(r, s.name)|;
    KeysHold(s.name, if s.throwsAt < n then s.throwsAt + 1 else n);
    NothingInvoked(r, s.name);
    StartedModule(r, s.name, s.throwsAt);
    StepOfKeeps(r, Apply(r, s), s.name);
  }

  lemma NothingInvoked(r: Run, name: string)
    requires Is(r, name, Waiting) && ModuleInvariant(r, name)
    ensures forall k: nat :: (name, k) !in r.hookState
  {}

  lemma HookKeeps(r: Run, name: string, k: nat, state: HookState)
    requires Invariant(r) && HookIs(r, name, k, Active) && state != Active
    ensures var r2 := r.(hookState := r.hookState[(name, k) := state]);
      Invariant(r2) && StepOf(r, r2, name)
  {
    hide Acyclic;
    var r2 := r.(hookState := r.hookState[(name, k) := state]);
    assert ModuleInvariant(r, name);
    assert AllHooksDone(r, name) ==> HookIs(r, name, k, Done);
    if r.phase[name] == Failed {
      var t :| 0 <= t < |HooksOf(r, name)| && HookIs(r, name, t, Threw);
      assert HookIs(r2, name, t, Threw);
    }
    StepOfKeeps(r, r2, name);
  }

  lemma RejectedModule(r: Run, name: string)
    requires name in r.phase && ModuleInvariant(r, name) && Enabled(r, DependencyFailed(name))
    ensures var r2 := Apply(r, DependencyFailed(name)); StepOf(r, r2, name) && ModuleInvariant(r2, name)
  {
    var d :| d in Deps(r.graph, name) && Is(r, d, Failed);
    assert Is(Apply(r, DependencyFailed(name)), d, Failed);
  }

  lemma SettledModule(r: Run, name: string)
    requires name in r.phase && ModuleInvariant(r, name) && Enabled(r, Settle(name))
    ensures var r2 := Apply(r, Settle(name)); StepOf(r, r2, name) && ModuleInvariant(r2, name)
  {
    var r2 := Apply(r, Settle(name));
    assert DepsFulfilled(r2, name);
    if SomeHookThrew(r, name) {
      var k :| 0 <= k < |HooksOf(r, name)| && HookIs(r, name, k, Threw);
      assert HookIs(r2, name, k, Threw);
    } else {
      forall k | 0 <= k < |HooksOf(r, name)| ensures HookIs(r2, name, k, Done) {
        assert HookIs(r, name, k, Done);
      }
    }
  }

  lemma PhaseKeeps(r: Run, s: Step)
    requires Invariant(r) && Enabled(r, s) && (s.DependencyFailed? || s.Settle?)
    ensures Invariant(Apply(r, s)) && StepOf(r, Apply(r, s), s.name)
  {
    hide Acyclic, ModuleInvariant, StepOf, DepsFulfilled, AllHooksDone, SomeHookThrew;
    if s.Settle? { SettledModule(r, s.name); } else { RejectedModule(r, s.name); }
    StepOfKeeps(r, Apply(r, s), s.name);
  }

  lemma StepKeeps(r: Run, s: Step)
    requires Invariant(r) && Enabled(r, s)
    ensures Invariant(Apply(r, s)) && StepOf(r, Apply(r, s), s.name)
  {
    match s
    case Start(_, _) => StartKeeps(r, s);
    case HookDone(name, k) => HookKeeps(r, name, k, Done);
    case HookThrew(name, k) => HookKeeps(r, name, k, Threw);
    case _ => PhaseKeeps(r, s);
  }

  lemma {:induction false} ScheduleKeeps(r: Run, steps: seq<Step>)
    requires Initial(r) && Schedule(r, steps)
    ensures Invariant(After(r, steps))
    ensures After(r, steps).graph == r.graph && After(r, steps).hooks == r.hooks
    ensures After(r, steps).phase.Keys == r.phase.Keys
  {
    hide Apply, Enabled;
    if steps == [] {
    } else {
      ScheduleKeeps(r, steps[..|steps| - 1]);
      StepKeeps(After(r, steps[..|steps| - 1]), steps[|steps| - 1]);
    }
  }

  // ---------- what every schedule guarantees ----------

  /** Everything a fulfilled module depends on, directly or not, is fulfilled, with all its hooks done. */
  lemma FulfilledDownwards(r: Run, n: string, d: string)
    requires Invariant(r) && Is(r, n, Fulfilled) && Reaches(r.graph, n, d)
    ensures Is(r, d, Fulfilled) && AllHooksDone(r, d)
  {
    var done := set m | m in r.phase && r.phase[m] == Fulfilled;
    forall m, e | m in done && e in Deps(r.graph, m) ensures e in done { assert ModuleInvariant(r, m); }
    ClosedSetHoldsReachable(r.graph, done, n, d);
    assert ModuleInvariant(r, d);
  }

  lemma InvokedAboveFulfilled(r: Run, n: string, k: nat, d: string)
    requires Invariant(r) && (n, k) in r.invoked && DependsOn(r.graph, n, d)
    ensures Is(r, d, Fulfilled) && AllHooksDone(r, d)
  {
    assert (n, k) in r.hookState;
    assert ModuleInvariant(r, n);
    var e :| e in Deps(r.graph, n) && Reaches(r.graph, e, d);
    assert Is(r, e, Fulfilled);
    FulfilledDownwards(r, e, d);
  }

  /** In every schedule no hook is invoked twice. */
  lemma HooksRunAtMostOnce(r0: Run, steps: seq<Step>)
    requires Initial(r0) && Schedule(r0, steps)
    ensures Distinct(After(r0, steps).invoked)
  {
    ScheduleKeeps(r0, steps);
  }

  /**
   In every schedule, once a hook of `n` has been invoked, everything `n` depends on has fulfilled, with all hooks
   done; so while a dependency is waiting, running or failed no hook of `n` has been invoked.
   */
  lemma HooksRunInOrder(r0: Run, steps: seq<Step>, n: string, k: nat, d: string)
    requires Initial(r0) && Schedule(r0, steps) && DependsOn(r0.graph, n, d)
    ensures var r := After(r0, steps);
      (n, k) in r.invoked ==> Is(r, d, Fulfilled) && AllHooksDone(r, d)
  {
    ScheduleKeeps(r0, steps);
    var r := After(r0, steps);
    if (n, k) in r.invoked { InvokedAboveFulfilled(r, n, k, d); }
  }

  /** A start step of the module at position `j` that got as far as hook `k`: no hook before `k` threw at once. */
  predicate ReachesHook(r0: Run, steps: seq<Step>, j: nat, n: string, k: nat)
  {
    j < |steps| && steps[j].Start? && steps[j].name == n && k < |HooksOf(r0, n)| && k <= steps[j].throwsAt
  }

  lemma StepInvokes(r: Run, s: Step, n: string, k: nat)
    requires Enabled(r, s)
    ensures (n, k) in Apply(r, s).invoked <==> (n, k) in r.invoked || ReachesHook(r, [s], 0, n, k)
  {
    if s.Start? {
      var count := |HooksOf(r, s.name)|;
      KeysHold(s.name, if s.throwsAt < count then s.throwsAt + 1 else count);
    }
  }

  /** In every schedule: a hook has been invoked exactly when its module was started and no hook before it threw at
      once. */
  lemma {:induction false} InvokedIff(r0: Run, steps: seq<Step>, n: string, k: nat)
    requires Initial(r0) && Schedule(r0, steps)
    ensures (n, k) in After(r0, steps).invoked <==> exists j: nat :: ReachesHook(r0, steps, j, n, k)
  {
    hide Apply, Enabled;
    if steps == [] {
    } else {
      var front, last := steps[..|steps| - 1], steps[|steps| - 1];
      InvokedIff(r0, front, n, k);
      ScheduleKeeps(r0, front);
      StepInvokes(After(r0, front), last, n, k);
      if j: nat :| ReachesHook(r0, front, j, n, k) { assert ReachesHook(r0, steps, j, n, k); }
      if ReachesHook(r0, [last], 0, n, k) { assert ReachesHook(r0, steps, |front|, n, k); }
      if j: nat :| ReachesHook(r0, steps, j, n, k) && j < |front| { assert ReachesHook(r0, front, j, n, k); }
    }
  }

  /** Hooks of one module are invoked in the order of their registration. */
  lemma {:induction false} HooksStartInOrder(r0: Run, steps: seq<Step>, i: nat, j: nat)
    requires Initial(r0) && Schedule(r0, steps)
    requires i < j < |After(r0, steps).invoked|
    requires After(r0, steps).invoked[i].0 == After(r0, steps).invoked[j].0
    ensures After(r0, steps).invoked[i].1 < After(r0, steps).invoked[j].1
  {
    hide Enabled;
    if steps == [] {
    } else {
      var front, last := steps[..|steps| - 1], steps[|steps| - 1];
      var r := After(r0, front);
      ScheduleKeeps(r0, front);
      if j < |r.invoked| {
        HooksStartInOrder(r0, front, i, j);
      } else {
        StartIsFresh(r, last);
      }
    }
  }

  /** What a step invokes belongs to a module of which nothing was invoked before. */
  lemma StartIsFresh(r: Run, s: Step)
    requires Invariant(r) && Enabled(r, s) && |Apply(r, s).invoked| > |r.invoked|
    ensures s.Start? && r.invoked <= Apply(r, s).invoked
    ensures forall key :: key in r.invoked ==> key.0 != s.name
    ensures forall k :: |r.invoked| <= k < |Apply(r, s).invoked| ==> Apply(r, s).invoked[k] == (s.name, k - |r.invoked|)
  {
    assert ModuleInvariant(r, s.name);
  }

  /** Settlements are final, and invocations are never forgotten. */
  lemma {:induction false} SettlementsAreFinal(r0: Run, steps: seq<Step>, more: seq<Step>, n: string)
    requires Initial(r0) && Schedule(r0, steps + more) && Schedule(r0, steps)
    requires Is(After(r0, steps), n, Fulfilled) || Is(After(r0, steps), n, Failed)
    ensures n in After(r0, steps + more).phase
    ensures After(r0, steps + more).phase[n] == After(r0, steps).phase[n]
  {
    hide Invariant, Apply, Enabled;
    if more == [] {
      assert steps + more == steps;
    } else {
      var front := more[..|more| - 1];
      assert (steps + more)[..|steps + more| - 1] == steps + front;
      SettlementsAreFinal(r0, steps, front, n);
      ScheduleKeeps(r0, steps + front);
      StepKeeps(After(r0, steps + front), more[|more| - 1]);
    }
  }

  /** A step that the scheduler itself takes, not a hook of the application. */
  predicate Internal(s: Step) { s.Start? || s.DependencyFailed? || s.Settle? }

  /** Below an unsettled module there is either an active hook or a module ready for a step of its own. */
  lemma {:induction false} SomethingToDo(r: Run, n: string, path: set<string>)
    requires Invariant(r) && (Is(r, n, Waiting) || Is(r, n, Running))
    requires AllDependOn(r.graph, path, n)
    ensures (exists m, k: nat :: HookIs(r, m, k, Active)) || (exists s :: Internal(s) && Enabled(r, s))
    decreases |Nodes(r.graph) - path|
  {
    hide DependsOn, Reaches, Nodes;
    assert ModuleInvariant(r, n);
    if Is(r, n, Running) {
      if k :| 0 <= k < |HooksOf(r, n)| && !HookIs(r, n, k, Done) && !HookIs(r, n, k, Threw) {
        assert (n, k) in r.hookState;
        assert HookIs(r, n, k, Active);
      } else {
        assert Enabled(r, Settle(n));
      }
    } else if DepsFulfilled(r, n) {
      assert Enabled(r, Start(n, 0));
    } else {
      var d :| d in Deps(r.graph, n) && !Is(r, d, Fulfilled);
      if Is(r, d, Failed) {
        assert Enabled(r, DependencyFailed(n));
      } else {
        ExtendPath(r.graph, path, n, d);
        SomethingToDo(r, d, path + {n});
      }
    }
  }

  /** No deadlock: while a module is unsettled, a hook is active or the scheduler has a step to take. */
  lemma NeverStuck(r0: Run, steps: seq<Step>, n: string)
    requires Initial(r0) && Schedule(r0, steps)
    requires Is(After(r0, steps), n, Waiting) || Is(After(r0, steps), n, Running)
    ensures var r := After(r0, steps);
      (exists m, k: nat :: HookIs(r, m, k, Active)) || (exists s :: Internal(s) && Enabled(r, s))
  {
    ScheduleKeeps(r0, steps);
    SomethingToDo(After(r0, steps), n, {});
  }

  // ---------- schedules are finite ----------

  /** All hooks of all launched modules, by module and position. */
  ghost function AllHooks(r: Run): set<(string, nat)>
  {
    set n, k: nat | n in r.phase && 0 <= k < |HooksOf(r, n)| :: (n, k)
  }

  ghost function Unended(r: Run): set<(string, nat)>
  {
    set key | key in AllHooks(r) && (key in r.hookState ==> r.hookState[key] == Active)
  }

  ghost function In(r: Run, phase: Phase): set<string> { set n | n in r.phase && r.phase[n] == phase }

  /** Twice the waiting modules, the running ones, and the hooks that have not ended. */
  ghost function Work(r: Run): nat { 2 * |In(r, Waiting)| + |In(r, Running)| + |Unended(r)| }

  lemma NothingRestarts(r: Run, s: Step)
    requires Invariant(r) && Enabled(r, s)
    ensures Unended(Apply(r, s)) <= Unended(r)
  {
    var r2 := Apply(r, s);
    assert AllHooks(r2) == AllHooks(r);
    assert ModuleInvariant(r, s.name);
    if s.Start? {
      KeysHold(s.name, if s.throwsAt < |HooksOf(r, s.name)| then s.throwsAt + 1 else |HooksOf(r, s.name)|);
    }
  }

  lemma StepDoesWork(r: Run, s: Step)
    requires Invariant(r) && Enabled(r, s)
    ensures Work(Apply(r, s)) < Work(r)
  {
    StepKeeps(r, s);
    var r2, name := Apply(r, s), s.name;
    NothingRestarts(r, s);
    match s
    case HookDone(_, k) => HookEnds(r, r2, name, k);
    case HookThrew(_, k) => HookEnds(r, r2, name, k);
    case _ => PhaseMoves(r, r2, name);
  }

  lemma PhaseMoves(r: Run, r2: Run, name: string)
    requires StepOf(r, r2, name) && Unended(r2) <= Unended(r)
    requires if r.phase[name] == Waiting then r2.phase[name] != Waiting
             else r.phase[name] == Running && r2.phase[name] != Waiting && r2.phase[name] != Running
    ensures Work(r2) < Work(r)
  {
    SubsetSize(Unended(r2), Unended(r));
    if r.phase[name] == Waiting {
      assert In(r2, Waiting) == In(r, Waiting) - {name};
      SubsetSize(In(r2, Running), In(r, Running) + {name});
    } else {
      assert In(r2, Waiting) == In(r, Waiting);
      assert In(r2, Running) == In(r, Running) - {name};
    }
  }

  lemma HookEnds(r: Run, r2: Run, name: string, k: nat)
    requires Invariant(r) && HookIs(r, name, k, Active)
    requires Unended(r2) <= Unended(r) && (name, k) !in Unended(r2) && r2.phase == r.phase
    ensures Work(r2) < Work(r)
  {
    assert (name, k) in AllHooks(r);
    ProperSubsetSize(Unended(r2), Unended(r), (name, k));
  }

  /** Every schedule is finite: two steps per module and one per hook at most. */
  lemma {:induction false} SchedulesAreFinite(r0: Run, steps: seq<Step>)
    requires Initial(r0) && Schedule(r0, steps)
    ensures |steps| + Work(After(r0, steps)) <= 2 * |r0.phase| + |AllHooks(r0)|
  {
    if steps == [] {
      assert In(r0, Waiting) == r0.phase.Keys && In(r0, Running) == {};
      assert Unended(r0) == AllHooks(r0);
    } else {
      var front := steps[..|steps| - 1];
      SchedulesAreFinite(r0, front);
      ScheduleKeeps(r0, front);
      StepDoesWork(After(r0, front), steps[|steps| - 1]);
    }
  }

  // ---------- how a finished run ends ----------

  ghost predicate Finished(r: Run) { forall s :: !Enabled(r, s) }

  ghost predicate ThrewBelow(r: Run, n: string)
  {
    exists d :: Reaches(r.graph, n, d) && SomeHookThrew(r, d)
  }

  lemma {:induction false} FailureHasACause(r: Run, n: string, path: set<string>)
    requires Invariant(r) && Is(r, n, Failed)
    requires AllDependOn(r.graph, path, n)
    ensures ThrewBelow(r, n)
    decreases |Nodes(r.graph) - path|
  {
    assert ModuleInvariant(r, n);
    if SomeHookThrew(r, n) {
      ReachesSelf(r.graph, n);
    } else {
      var d :| d in Deps(r.graph, n) && Is(r, d, Failed);
      ExtendPath(r.graph, path, n, d);
      FailureHasACause(r, d, path + {n});
      var e :| Reaches(r.graph, d, e) && SomeHookThrew(r, e);
      ReachesThroughDep(r.graph, n, d, e);
    }
  }

  lemma NothingThrewBelow(r: Run, n: string)
    requires Invariant(r) && Is(r, n, Fulfilled)
    ensures !ThrewBelow(r, n)
  {
    forall d | Reaches(r.graph, n, d) ensures !SomeHookThrew(r, d) {
      FulfilledDownwards(r, n, d);
      forall k | 0 <= k < |HooksOf(r, d)| ensures !HookIs(r, d, k, Threw) { assert HookIs(r, d, k, Done); }
    }
  }

  /**
   A finished run has settled every module: one failed exactly when a hook of its own or of something it depends
   on threw, and otherwise all its hooks were invoked, exactly once, and are done.
   */
  lemma FinishedRun(r0: Run, steps: seq<Step>, n: string)
    requires Initial(r0) && Schedule(r0, steps) && Finished(After(r0, steps)) && n in r0.phase
    ensures var r := After(r0, steps);
      && (ThrewBelow(r, n) ==> Is(r, n, Failed))
      && (!ThrewBelow(r, n) ==>
            && Is(r, n, Fulfilled) && Distinct(r.invoked)
            && forall k: nat :: k < |HooksOf(r, n)| ==> (n, k) in r.invoked && HookIs(r, n, k, Done))
  {
    ScheduleKeeps(r0, steps);
    var r := After(r0, steps);
    AllSettled(r, n);
    if Is(r, n, Failed) { FailureHasACause(r, n, {}); }
    if Is(r, n, Fulfilled) {
      NothingThrewBelow(r, n);
      assert ModuleInvariant(r, n);
      forall k: nat | k < |HooksOf(r, n)| ensures (n, k) in r.invoked { assert HookIs(r, n, k, Done); }
    }
  }

  lemma AllSettled(r: Run, n: string)
    requires Invariant(r) && Finished(r) && n in r.phase
    ensures Is(r, n, Fulfilled) || Is(r, n, Failed)
  {
    forall m: string, k: nat ensures HookIs(r, m, k, Active) ==> Enabled(r, HookDone(m, k)) {}
    if Is(r, n, Waiting) || Is(r, n, Running) { SomethingToDo(r, n, {}); }
  }
}
