/**
  Configuration of init's services: name resolution and construction of the dependency graph.
  */
module ServiceConfig {
  import opened ServiceGraph

  datatype DepType = Requires | Wants | After

  datatype Dependency = Dependency(target: nat, kind: DepType)

  datatype Config = Config(
    name: string, after: seq<string>, ready: seq<string>, waitPath: string, delayMs: nat, mount: string,
    respawn: bool)

  const SVC_DEPS_MAX := 8

  datatype Setup = Setup(configs: seq<Config>, deps: seq<seq<Dependency>>, order: seq<nat>)

  function Targets(deps: seq<Dependency>): seq<nat> {
    seq(|deps|, k requires 0 <= k < |deps| => deps[k].target)
  }

  function GraphOf(deps: seq<seq<Dependency>>): Graph {
    seq(|deps|, i requires 0 <= i < |deps| => Targets(deps[i]))
  }

  function FindByName(configs: seq<Config>, name: string, from: nat := 0): (idx: int)
    requires from <= |configs| && forall j :: 0 <= j < from ==> configs[j].name != name
    ensures -1 <= idx < |configs|
    ensures idx == -1 <==> forall j :: 0 <= j < |configs| ==> configs[j].name != name
    ensures 0 <= idx ==> configs[idx].name == name && forall j :: 0 <= j < idx ==> configs[j].name != name
    decreases |configs| - from
  {
    if from == |configs| then -1
    else if configs[from].name == name then from
    else FindByName(configs, name, from + 1)
  }

  predicate Known(configs: seq<Config>, name: string) {
    0 <= FindByName(configs, name)
  }

  ghost predicate ResolvableNode(configs: seq<Config>, c: Config) {
    && |c.after| + |c.ready| <= SVC_DEPS_MAX * 3
    && (forall n :: n in c.after ==> Known(configs, n))
    && (forall n :: n in c.ready ==> Known(configs, n))
  }

  /** Every dependency is the name of a service and no service has too many of them. */
  ghost predicate Resolvable(configs: seq<Config>) {
    forall i :: 0 <= i < |configs| ==> ResolvableNode(configs, configs[i])
  }

  ghost function Resolved(configs: seq<Config>, names: seq<string>, kind: DepType): seq<Dependency>
    requires forall n :: n in names ==> Known(configs, n)
  {
    seq(|names|, k requires 0 <= k < |names| && Known(configs, names[k]) =>
      Dependency(FindByName(configs, names[k]), kind))
  }

  /** The dependency list of a service: its `after` names, then its `ready` names. */
  ghost function DependenciesOf(configs: seq<Config>, c: Config): seq<Dependency>
    requires ResolvableNode(configs, c)
  {
    Resolved(configs, c.after, After) + Resolved(configs, c.ready, Requires)
  }

  ghost function AllDependencies(configs: seq<Config>): seq<seq<Dependency>>
    requires Resolvable(configs)
  {
    seq(|configs|, i requires 0 <= i < |configs| => DependenciesOf(configs, configs[i]))
  }

  /** A built setup: resolved dependencies and an order with every dependency first. */
  ghost predicate Valid(s: Setup) {
    && Resolvable(s.configs) && s.deps == AllDependencies(s.configs)
    && Finished(GraphOf(s.deps), s.order) && |s.order| == |s.deps|
    && (forall x: nat :: x < |s.deps| ==> x in s.order)
  }

  lemma ResolvedIsWellFormed(configs: seq<Config>)
    requires Resolvable(configs)
    ensures WellFormed(GraphOf(AllDependencies(configs)))
  {
    var g := GraphOf(AllDependencies(configs));
    forall i, d | 0 <= i < |g| && d in g[i] ensures d < |g| {
      assert ResolvableNode(configs, configs[i]);
    }
  }

  method ResolveNames(configs: seq<Config>, names: seq<string>, kind: DepType, count: nat)
    returns (ok: bool, deps: seq<Dependency>)
    requires count <= SVC_DEPS_MAX * 3
    ensures ok <==> count + |names| <= SVC_DEPS_MAX * 3 && forall n :: n in names ==> Known(configs, n)
    ensures ok ==> deps == Resolved(configs, names, kind)
  {
    deps := [];
    for j := 0 to |names|
      invariant count + j <= SVC_DEPS_MAX * 3 && forall n :: n in names[..j] ==> Known(configs, n)
      invariant deps == Resolved(configs, names[..j], kind)
    {
      var idx := FindByName(configs, names[j]);
      if idx < 0 {
        assert names[j] in names;
        return false, deps;
      }
      if count + |deps| >= SVC_DEPS_MAX * 3 {
        return false, deps;
      }
      assert names[..j + 1] == names[..j] + [names[j]];
      deps := deps + [Dependency(idx, kind)];
    }
    assert names[..|names|] == names;
    return true, deps;
  }

  /** Succeeds exactly when every name resolves and the graph has no cycle; the sort's own failure
      branch is never taken after a passed cycle check. */
  method BuildDependencyGraph(configs: seq<Config>) returns (ok: bool, s: Setup)
    requires |configs| <= SVC_MAX_SERVICES
    ensures ok <==> Resolvable(configs) && !Cyclic(GraphOf(AllDependencies(configs)))
    ensures ok ==> s.configs == configs && Valid(s)
  {
    var deps: seq<seq<Dependency>> := [];
    s := Setup(configs, [], []);
    for i := 0 to |configs|
      invariant |deps| == i
      invariant forall x :: 0 <= x < i ==>
                  ResolvableNode(configs, configs[x]) && deps[x] == DependenciesOf(configs, configs[x])
    {
      var cfg := configs[i];
      var okAfter, after := ResolveNames(configs, cfg.after, After, 0);
      if !okAfter {
        return false, s;
      }
      var okReady, ready := ResolveNames(configs, cfg.ready, Requires, |cfg.after|);
      if !okReady {
        return false, s;
      }
      deps := deps + [after + ready];
    }
    assert deps == AllDependencies(configs);
    ResolvedIsWellFormed(configs);
    var graph := new DependencyGraph(GraphOf(deps));
    var cyclic := graph.DetectCycles();
    if cyclic {
      return false, s;
    }
    var sorted := graph.TopologicalSort();
    assert sorted;
    s := Setup(configs, deps, graph.topoOrder);
    return true, s;
  }
}
