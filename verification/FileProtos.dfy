/**
 Collecting file descriptors for server reflection: depth-first, dependencies before the file itself, duplicates
 dropped by file name. Import graphs are arbitrary finite graphs; names identify files.
 */
module FileProtos {
  import opened Graphs
  import opened Collections

  type Proto = nat  // identity of a file descriptor message

  datatype File = File(proto: Proto, dependencies: seq<string>)

  type Registry = map<string, File>

  function Imports(files: Registry): Graph { map n | n in files :: files[n].dependencies }

  ghost predicate Resolved(files: Registry)
  {
    forall n, d :: n in files && d in files[n].dependencies ==> d in files
  }

  /** Everything a file imports is emitted before it. */
  ghost predicate DependencyFirst(g: Graph, emitted: seq<string>)
  {
    forall k, d :: 0 <= k < |emitted| && d in Deps(g, emitted[k]) ==> d in emitted[..k]
  }

  /** Visited names are the emitted ones and those whose visit is still open (`path`). */
  ghost predicate Collecting(g: Graph, emitted: seq<string>, visited: set<string>, path: set<string>)
  {
    && Distinct(emitted)
    && (forall n :: n in visited <==> n in emitted || n in path)
    && (forall n :: n in path ==> n !in emitted)
    && (forall n, d :: n in emitted && d in Deps(g, n) ==> d in visited)
    && (Acyclic(g) ==> DependencyFirst(g, emitted))
  }

  /** `n` is one of the requested files or something they import. */
  ghost predicate Wanted(g: Graph, requested: seq<string>, n: string)
  {
    exists f :: f in requested && Reaches(g, f, n)
  }

  lemma EnterVisit(g: Graph, emitted: seq<string>, visited: set<string>, path: set<string>, n: string)
    requires Collecting(g, emitted, visited, path) && n !in visited
    ensures Collecting(g, emitted, visited + {n}, path + {n}) && n !in path
    ensures GrownBelow(g, n, visited, visited + {n})
  {
    hide Acyclic, DependencyFirst, Reaches;
    ReachesSelf(g, n);
  }

  lemma NoOpenDependency(g: Graph, path: set<string>, n: string, d: string)
    requires Acyclic(g) && AllDependOn(g, path, n) && d in Deps(g, n)
    ensures d !in path + {n}
  {
    StackGrows(g, path, n, d);
  }

  lemma LeaveVisit(g: Graph, emitted: seq<string>, visited: set<string>, path: set<string>, n: string)
    requires Collecting(g, emitted, visited, path + {n}) && n !in path && AllDependOn(g, path, n)
    requires forall d :: d in Deps(g, n) ==> d in visited
    ensures Collecting(g, emitted + [n], visited, path)
  {
    hide Acyclic, AllDependOn;
    if Acyclic(g) {
      forall k, d | 0 <= k < |emitted + [n]| && d in Deps(g, (emitted + [n])[k]) ensures d in (emitted + [n])[..k] {
        if k == |emitted| {
          NoOpenDependency(g, path, n, d);
          assert (emitted + [n])[..k] == emitted;
        } else {
          assert (emitted + [n])[..k] == emitted[..k];
        }
      }
    }
  }

  lemma Complete(g: Graph, requested: seq<string>, emitted: seq<string>, visited: set<string>)
    requires Collecting(g, emitted, visited, {})
    requires forall f :: f in requested ==> f in visited
    requires forall n :: n in visited ==> Wanted(g, requested, n)
    ensures forall n :: n in emitted <==> Wanted(g, requested, n)
  {
    hide Reaches, Acyclic, Wanted;
    forall n | Wanted(g, requested, n) ensures n in visited { WantedIsVisited(g, requested, visited, n); }
  }

  lemma WantedIsVisited(g: Graph, requested: seq<string>, visited: set<string>, n: string)
    requires Wanted(g, requested, n) && forall f :: f in requested ==> f in visited
    requires forall m, d :: m in visited && d in Deps(g, m) ==> d in visited
    ensures n in visited
  {
    var f :| f in requested && Reaches(g, f, n);
    ClosedSetHoldsReachable(g, visited, f, n);
  }

  lemma StillWanted(g: Graph, requested: seq<string>, f: string, before: set<string>, now: set<string>)
    requires f in requested && GrownBelow(g, f, before, now)
    requires forall n :: n in before ==> Wanted(g, requested, n)
    ensures before <= now && forall n :: n in now ==> Wanted(g, requested, n)
  {}

  class Collector {
    const files: Registry
    var visited: set<string>
    var result: seq<Proto>
    ghost var emitted: seq<string>  // names of the files in `result`

    ghost function Graph(): Graphs.Graph { Imports(files) }

    ghost predicate Valid() reads this
    {
      && Resolved(files) && visited <= files.Keys
      && (forall n :: n in emitted ==> n in files)
      && result ==
         seq(|emitted|, k requires 0 <= k < |emitted| && emitted[k] in files reads this => files[emitted[k]].proto)
    }

    constructor (files: Registry)
      requires Resolved(files)
      ensures this.files == files && Valid() && visited == {} && emitted == []
    {
      this.files, visited, result, emitted := files, {}, [], [];
    }

    /** `visit`: terminates on cyclic imports too, because a file is marked before its dependencies. */
    method Visit(name: string, ghost path: set<string>)
      requires Valid() && name in files && Collecting(Graph(), emitted, visited, path)
      requires AllDependOn(Graph(), path, name)
      modifies this
      ensures Valid() && Collecting(Graph(), emitted, visited, path) && name in visited
      ensures GrownBelow(Graph(), name, old(visited), visited)
      decreases files.Keys - visited
    {
      hide Collecting, AllDependOn, Reaches, GrownBelow;
      ghost var g := Graph();
      if name in visited {
        NotGrown(g, name, visited);
        return;
      }
      EnterVisit(g, emitted, visited, path, name);
      visited := visited + {name};
      var deps := files[name].dependencies;
      assert deps == Deps(g, name);
      var k := 0;
      while k < |deps|
        invariant 0 <= k <= |deps| && Valid() && name in visited
        invariant old(visited) + {name} <= visited
        invariant Collecting(g, emitted, visited, path + {name})
        invariant GrownBelow(g, name, old(visited), visited)
        invariant forall j :: 0 <= j < k ==> deps[j] in visited
      {
        StackGrows(g, path, name, deps[k]);
        ghost var mid := visited;
        Visit(deps[k], path + {name});
        GrownThroughDep(g, name, deps[k], old(visited), mid, visited);
        k := k + 1;
      }
      LeaveVisit(g, emitted, visited, path, name);
      result := result + [files[name].proto];
      emitted := emitted + [name];
    }
  }

  lemma NothingCollected(g: Graph)
    ensures Collecting(g, [], {}, {})
  {}

  /** `result` holds the descriptors of the files `names`, in that order. */
  ghost predicate DescriptorsOf(files: Registry, names: seq<string>, result: seq<Proto>)
  {
    |result| == |names| && forall k :: 0 <= k < |names| ==> names[k] in files && result[k] == files[names[k]].proto
  }

  /** `names` are the requested files and all they import, each once; dependencies first, if imports are acyclic. */
  ghost predicate CollectedNames(files: Registry, requested: seq<string>, names: seq<string>)
  {
    && Distinct(names)
    && (forall n :: n in names <==> Wanted(Imports(files), requested, n))
    && (Acyclic(Imports(files)) ==> DependencyFirst(Imports(files), names))
  }

  /**
   The emitted files are exactly those reachable from the requested ones, each once; and if imports are acyclic,
   every file comes after everything it imports.
   */
  method CollectFileProtos(files: Registry, requested: seq<string>) returns (result: seq<Proto>)
    requires Resolved(files) && forall f :: f in requested ==> f in files
    ensures exists names :: CollectedNames(files, requested, names) && DescriptorsOf(files, names, result)
  {
    hide Collecting, AllDependOn, Reaches, GrownBelow, Wanted, Acyclic, DependencyFirst;
    var collector := new Collector(files);
    ghost var g := Imports(files);
    NothingCollected(g);
    var k := 0;
    while k < |requested|
      invariant 0 <= k <= |requested| && collector.Valid() && collector.files == files && fresh(collector)
      invariant Collecting(g, collector.emitted, collector.visited, {})
      invariant forall j :: 0 <= j < k ==> requested[j] in collector.visited
      invariant forall n :: n in collector.visited ==> Wanted(g, requested, n)
    {
      ghost var before := collector.visited;
      NobodyAbove(g, requested[k]);
      collector.Visit(requested[k], {});
      StillWanted(g, requested, requested[k], before, collector.visited);
      k := k + 1;
    }
    Complete(g, requested, collector.emitted, collector.visited);
    Ordered(g, collector.emitted, collector.visited);
    result := collector.result;
    assert CollectedNames(files, requested, collector.emitted) && DescriptorsOf(files, collector.emitted, result);
  }

  lemma NobodyAbove(g: Graph, n: string)
    ensures AllDependOn(g, {}, n)
  {}

  lemma Ordered(g: Graph, emitted: seq<string>, visited: set<string>)
    requires Collecting(g, emitted, visited, {})
    ensures Distinct(emitted) && (Acyclic(g) ==> DependencyFirst(g, emitted))
  {}
}
