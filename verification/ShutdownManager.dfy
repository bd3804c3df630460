/**
 The shutdown manager: hooks registered under module names, a dependency graph kept acyclic by an incremental
 cycle test with rollback, and the synchronous stretch of `executeAll`, which launches every module once.
 What happens after that stretch is the step system of `ShutdownRuns`.
 */
module ShutdownManagers {
  import opened Graphs
  import opened Collections
  import opened ShutdownRuns

  /** The three overloads of `addHook`. */
  datatype HookArgs =
    | Anonymous(handler: Hook)
    | Named(name: string, handler: Hook)
    | WithDependencies(name: string, dependencies: seq<string>, handler: Hook)

  datatype AddResult = Added | CycleError(name: string)

  // ---------- the cycle test ----------

  /** Depth-first search with a path-set: `visited` is copied for every branch. */
  predicate TestForCycles(g: Graph, name: string, visited: set<string>)
    decreases Nodes(g) - visited
  {
    name in visited ||
    exists k :: 0 <= k < |Deps(g, name)| && TestForCycles(g, Deps(g, name)[k], visited + {name})
  }

  /** The last node of `p` is in `visited` or occurs earlier on `p`. */
  ghost predicate Repeats(p: seq<string>, visited: set<string>)
    requires |p| >= 1
  {
    p[|p| - 1] in visited || p[|p| - 1] in p[..|p| - 1]
  }

  ghost predicate RepeatingPath(g: Graph, p: seq<string>, name: string, visited: set<string>)
  {
    Path(g, p) && p[0] == name && Repeats(p, visited)
  }

  lemma {:induction false} SearchFindsRepeat(g: Graph, name: string, visited: set<string>) returns (p: seq<string>)
    requires TestForCycles(g, name, visited)
    ensures RepeatingPath(g, p, name, visited)
    decreases Nodes(g) - visited
  {
    p := [name];
    if name !in visited {
      var deps := Deps(g, name);
      var k :| 0 <= k < |deps| && TestForCycles(g, deps[k], visited + {name});
      var q := SearchFindsRepeat(g, deps[k], visited + {name});
      p := [name] + q;
      assert p[..|p| - 1] == [name] + q[..|q| - 1];
    }
  }

  lemma {:induction false} RepeatIsFound(g: Graph, p: seq<string>, name: string, visited: set<string>)
    requires RepeatingPath(g, p, name, visited)
    ensures TestForCycles(g, name, visited)
    decreases |p|
  {
    if name !in visited {
      var deps, q := Deps(g, name), p[1..];
      assert p[..|p| - 1] == [name] + q[..|q| - 1];
      assert q[0] in deps;
      var k :| 0 <= k < |deps| && deps[k] == q[0];
      RepeatIsFound(g, q, q[0], visited + {name});
    }
  }

  /** The test finds a cycle exactly when one can be reached from `name`. */
  lemma TestFindsCycles(g: Graph, name: string)
    ensures TestForCycles(g, name, {}) <==> exists n :: Reaches(g, name, n) && DependsOn(g, n, n)
  {
    if TestForCycles(g, name, {}) {
      var p := SearchFindsRepeat(g, name, {});
      var k :| 0 <= k < |p| - 1 && p[k] == p[|p| - 1];
      PathAsCycle(g, p[k..]);
      assert PathFromTo(g, p[..k + 1], name, p[k]);
    }
    if n :| Reaches(g, name, n) && DependsOn(g, n, n) {
      var p :| PathFromTo(g, p, name, n);
      var cycle := CycleAsPath(g, n);
      var there := p + cycle[1..];
      assert Path(g, there);
      assert there[|p| - 1] == n && there[|p| - 1] in there[..|there| - 1];
      RepeatIsFound(g, there, name, {});
    }
  }

  /** On a graph that was acyclic before, the test answers whether the new edges close a cycle. */
  lemma TestDecides(g: Graph, g2: Graph, name: string, added: seq<string>)
    requires Acyclic(g) && Extends(g, g2, name, added)
    ensures TestForCycles(g2, name, {}) <==> exists d :: d in added && Reaches(g, d, name)
    ensures TestForCycles(g2, name, {}) <==> !Acyclic(g2)
  {
    CycleIffTargetReaches(g, g2, name, added);
    TestFindsCycles(g2, name);
    ReachesSelf(g2, name);
  }

  // ---------- launching modules ----------

  /**
   The bodies entered (`launched`) are those memoised plus those still on the call stack (`path`), each once.
   The memo is written only after the recursive calls, so this rests on stack and memo staying apart.
   */
  ghost predicate Launching(g: Graph, launched: seq<string>, memo: map<string, Phase>, path: set<string>)
  {
    && Distinct(launched)
    && (forall n :: n in launched <==> n in memo || n in path)
    && memo.Keys !! path
    && (forall n :: n in memo ==> memo[n] == Waiting)
    && (forall n, d :: n in memo && d in Deps(g, n) ==> d in memo)
  }

  lemma EnterBody(g: Graph, launched: seq<string>, memo: map<string, Phase>, path: set<string>, n: string)
    requires Launching(g, launched, memo, path) && n !in memo && n !in path
    ensures Launching(g, launched + [n], memo, path + {n})
  {}

  lemma LeaveBody(g: Graph, launched: seq<string>, memo: map<string, Phase>, path: set<string>, n: string)
    requires Launching(g, launched, memo, path + {n}) && n !in path
    requires forall d :: d in Deps(g, n) ==> d in memo
    ensures Launching(g, launched, memo[n := Waiting], path)
  {
    assert n !in memo;
  }

  lemma GrownByItself(g: Graph, n: string, before: set<string>, now: map<string, Phase>)
    requires GrownBelow(g, n, before, now.Keys)
    ensures GrownBelow(g, n, before, now[n := Waiting].Keys)
  {
    ReachesSelf(g, n);
  }

  lemma LaunchedOnce(g: Graph, launched: seq<string>, memo: map<string, Phase>)
    requires Launching(g, launched, memo, {})
    ensures Distinct(launched) && memo.Keys == set n | n in launched
  {}

  lemma NothingLaunched(g: Graph, hooks: map<string, seq<Hook>>)
    ensures Launching(g, [], map[], {}) && BelowHooks(g, hooks, map[])
  {}

  /** `n` is registered, or something registered depends on it. */
  ghost predicate Covered(g: Graph, hooks: map<string, seq<Hook>>, n: string)
  {
    exists h :: h in hooks && Reaches(g, h, n)
  }

  ghost predicate BelowHooks(g: Graph, hooks: map<string, seq<Hook>>, memo: map<string, Phase>)
  {
    forall n :: n in memo ==> Covered(g, hooks, n)
  }

  lemma StillBelowHooks(
      g: Graph, hooks: map<string, seq<Hook>>, n: string, before: map<string, Phase>, now: map<string, Phase>)
    requires n in hooks && BelowHooks(g, hooks, before) && GrownBelow(g, n, before.Keys, now.Keys)
    ensures BelowHooks(g, hooks, now) && before.Keys <= now.Keys
  {
    hide Reaches;
  }

  /** Once every registered module is memoised, so is everything reachable from one, and nothing else. */
  lemma LaunchComplete(g: Graph, hooks: map<string, seq<Hook>>, launched: seq<string>, memo: map<string, Phase>)
    requires Acyclic(g) && Launching(g, launched, memo, {}) && BelowHooks(g, hooks, memo)
    requires forall h :: h in hooks ==> h in memo
    ensures forall n :: n in launched <==> Covered(g, hooks, n)
    ensures Initial(Run(g, hooks, memo, map[], []))
  {
    hide Reaches, Acyclic, Covered;
    forall n | Covered(g, hooks, n) ensures n in memo { CoveredIsLaunched(g, hooks, memo, n); }
  }

  lemma CoveredIsLaunched(g: Graph, hooks: map<string, seq<Hook>>, memo: map<string, Phase>, n: string)
    requires Covered(g, hooks, n) && forall h :: h in hooks ==> h in memo
    requires forall m, d :: m in memo && d in Deps(g, m) ==> d in memo
    ensures n in memo
  {
    var h :| h in hooks && Reaches(g, h, n);
    ClosedSetHoldsReachable(g, memo.Keys, h, n);
  }

  // ---------- names of anonymous hooks ----------

  function Decimal(n: nat): string
  {
    var digit := ['0' + (n % 10) as char];
    if n < 10 then digit else Decimal(n / 10) + digit
  }

  /** The number a decimal numeral stands for. */
  function NumberOf(s: string): int
  {
    if s == "" then 0 else 10 * NumberOf(s[..|s| - 1]) + (s[|s| - 1] as int - '0' as int)
  }

  /** The numeral of a number stands for it; so different numbers have different numerals. */
  lemma {:induction false} DecimalReadsBack(n: nat)
    ensures NumberOf(Decimal(n)) == n
    ensures forall k :: 0 <= k < |Decimal(n)| ==> '0' <= Decimal(n)[k] <= '9'
  {
    var digit := ['0' + (n % 10) as char];
    if n < 10 {
      assert digit[..0] == "";
    } else {
      DecimalReadsBack(n / 10);
      var s := Decimal(n);
      assert s[..|s| - 1] == Decimal(n / 10);
    }
  }

  lemma AnonymousNamesDiffer(m: nat, n: nat)
    requires m != n
    ensures "__anon_" + Decimal(m) != "__anon_" + Decimal(n)
  {
    DecimalReadsBack(m);
    DecimalReadsBack(n);
    assert ("__anon_" + Decimal(m))[7..] == Decimal(m) && ("__anon_" + Decimal(n))[7..] == Decimal(n);
  }

  class ShutdownManager {
    var dependencyTree: Graph
    var hooks: map<string, seq<Hook>>
    var hookOrder: seq<string>                 // insertion order of the keys of `hooks`
    var pendingPromises: map<string, Phase>
    var anonCounter: nat
    ghost var launched: seq<string>            // module bodies entered since the last `executeAll`, in order

    ghost predicate Valid() reads this
    {
      && Acyclic(dependencyTree)
      && Distinct(hookOrder)
      && hooks.Keys == set n | n in hookOrder
    }

    constructor ()
      ensures Valid() && dependencyTree == map[] && hooks == map[] && anonCounter == 0
    {
      dependencyTree, hooks, hookOrder, pendingPromises, anonCounter, launched := map[], map[], [], map[], 0, [];
      new;
      EmptyIsAcyclic();
    }

    function NameOf(args: HookArgs): string reads this
    {
      if args.Anonymous? then "__anon_" + Decimal(anonCounter) else args.name
    }

    function DependenciesOf(args: HookArgs): seq<string>
    {
      if args.WithDependencies? then args.dependencies else []
    }

    function HooksOf(name: string): seq<Hook> reads this { if name in hooks then hooks[name] else [] }

    /**
     Throws exactly when one of the new dependencies already depends on `name` (or is `name`), and then no edge
     and no hook changes; the graph stays acyclic either way.
     */
    method AddHook(args: HookArgs) returns (result: AddResult)
      requires Valid()
      modifies this
      ensures Valid()
      ensures
        var name := match args
          case Anonymous(_) => "__anon_" + Decimal(old(anonCounter))
          case Named(given, _) => given
          case WithDependencies(given, _, _) => given;
        var deps := match args case WithDependencies(_, given, _) => given case _ => [];
        && (result == CycleError(name) <==> exists d :: d in deps && Reaches(old(dependencyTree), d, name))
        && (result != CycleError(name) ==>
              && result == Added
              && dependencyTree == old(dependencyTree)[name := Deps(old(dependencyTree), name) + deps]
              && hooks == old(hooks)[name := old(HooksOf(name)) + [args.handler]])
        && (result == CycleError(name) ==>
              && dependencyTree == old(dependencyTree)[name := Deps(old(dependencyTree), name)]
              && (forall n :: Deps(dependencyTree, n) == Deps(old(dependencyTree), n))
              && hooks == old(hooks))
        && hookOrder == old(hookOrder) + if result == Added && name !in old(hooks) then [name] else []
      ensures anonCounter == old(anonCounter) + if args.Anonymous? then 1 else 0
      ensures pendingPromises == old(pendingPromises)
    {
      hide Reaches, DependsOn, Acyclic, TestForCycles, Deps, Extends, Decimal, Distinct;
      var name := NameOf(args);
      var dependencies := DependenciesOf(args);
      if args.Anonymous? { anonCounter := anonCounter + 1; }

      ghost var before := dependencyTree;
      var existing := Deps(dependencyTree, name);
      dependencyTree := dependencyTree[name := existing + dependencies];
      ExtendedGraph(before, name, dependencies);
      TestDecides(before, dependencyTree, name, dependencies);
      if TestForCycles(dependencyTree, name, {}) {
        dependencyTree := dependencyTree[name := existing];
        RolledBackGraph(before, before[name := existing + dependencies], name);
        return CycleError(name);
      }
      if name !in hooks {
        hooks := hooks[name := []];
        DistinctSnoc(hookOrder, name);
        hookOrder := hookOrder + [name];
      }
      hooks := hooks[name := hooks[name] + [args.handler]];
      result := Added;
    }

    // ---------- executeAll, up to its first await ----------

    method ExecuteModule(name: string, ghost path: set<string>)
      requires Acyclic(dependencyTree) && Launching(dependencyTree, launched, pendingPromises, path)
      requires AllDependOn(dependencyTree, path, name)
      modifies `pendingPromises, `launched
      ensures Launching(dependencyTree, launched, pendingPromises, path) && name in pendingPromises
      ensures GrownBelow(dependencyTree, name, old(pendingPromises).Keys, pendingPromises.Keys)
      decreases |Nodes(dependencyTree) - path|
    {
      hide Nodes, Deps, Acyclic, Launching, DependsOn, AllDependOn, Reaches, GrownBelow;
      NotGrown(dependencyTree, name, pendingPromises.Keys);
      if name in pendingPromises { return; }
      NotOnPath(dependencyTree, path, name);
      EnterBody(dependencyTree, launched, pendingPromises, path, name);
      launched := launched + [name];
      var deps := Deps(dependencyTree, name);
      var k := 0;
      while k < |deps|
        invariant 0 <= k <= |deps|
        invariant Launching(dependencyTree, launched, pendingPromises, path + {name})
        invariant GrownBelow(dependencyTree, name, old(pendingPromises).Keys, pendingPromises.Keys)
        invariant forall j :: 0 <= j < k ==> deps[j] in pendingPromises
      {
        ExtendPath(dependencyTree, path, name, deps[k]);
        ghost var mid := pendingPromises.Keys;
        ExecuteModule(deps[k], path + {name});
        GrownThroughDep(dependencyTree, name, deps[k], old(pendingPromises).Keys, mid, pendingPromises.Keys);
        k := k + 1;
      }
      GrownByItself(dependencyTree, name, old(pendingPromises).Keys, pendingPromises);
      LeaveBody(dependencyTree, launched, pendingPromises, path, name);
      pendingPromises := pendingPromises[name := Waiting];
    }

    /** The run that `executeAll` sets off: every module still waiting, no hook invoked yet. */
    ghost function StartedRun(): Run reads this
    {
      Run(dependencyTree, hooks, pendingPromises, map[], [])
    }

    /**
     With no hook registered nothing happens. Otherwise every module reachable from a registered one is launched
     exactly once, and the run starts in an initial state of the step system.
     */
    method ExecuteAll()
      requires Valid()
      modifies `pendingPromises, `launched
      ensures hooks == map[] ==> pendingPromises == old(pendingPromises) && launched == old(launched)
      ensures hooks != map[] ==>
        && Distinct(launched)
        && (forall n :: n in launched <==> Covered(dependencyTree, hooks, n))
        && pendingPromises.Keys == (set n | n in launched)
        && Initial(StartedRun())
    {
      hide Reaches, DependsOn, Nodes, Acyclic, BelowHooks, Covered, GrownBelow, Launching;
      if |hooks| == 0 { return; }
      pendingPromises := map[];
      launched := [];
      NothingLaunched(dependencyTree, hooks);
      var k := 0;
      while k < |hookOrder|
        invariant 0 <= k <= |hookOrder|
        invariant Launching(dependencyTree, launched, pendingPromises, {})
        invariant forall j :: 0 <= j < k ==> hookOrder[j] in pendingPromises
        invariant BelowHooks(dependencyTree, hooks, pendingPromises)
      {
        assert hookOrder[k] in hooks;
        ghost var before := pendingPromises;
        ExecuteModule(hookOrder[k], {});
        StillBelowHooks(dependencyTree, hooks, hookOrder[k], before, pendingPromises);
        k := k + 1;
      }
      LaunchComplete(dependencyTree, hooks, launched, pendingPromises);
      LaunchedOnce(dependencyTree, launched, pendingPromises);
    }
  }

  lemma NotOnPath(g: Graph, path: set<string>, n: string)
    requires Acyclic(g) && AllDependOn(g, path, n)
    ensures n !in path
  {}

  lemma EmptyIsAcyclic()
    ensures Acyclic(map[])
  {}

  lemma ExtendedGraph(g: Graph, name: string, added: seq<string>)
    ensures Extends(g, g[name := Deps(g, name) + added], name, added)
  {}

  lemma RolledBackGraph(g: Graph, tried: Graph, name: string)
    requires Acyclic(g) && name in tried && tried == g[name := tried[name]]
    ensures var back := tried[name := Deps(g, name)];
      && back == g[name := Deps(g, name)]
      && Acyclic(back)
      && forall n :: Deps(back, n) == Deps(g, n)
  {
    var back := tried[name := Deps(g, name)];
    assert Extends(g, back, name, []);
    CycleIffTargetReaches(g, back, name, []);
  }
}
