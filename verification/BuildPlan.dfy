/** Which services an edit can change the load of: the reverse closure of the services' edges. */
module BuildPlan {
  import opened Basics
  import opened CheckTypes

  /** What a service depends on beside what its config names. */
  type Edges = Service -> seq<string>

  /** The services a service depends on: those its config names, and those `also` lists for it. */
  function EdgesOf(s: Service, also: Edges): seq<string> {
    s.edges + also(s)
  }

  /** A chain of services, each depending on the one before. */
  ghost predicate Chain(services: seq<Service>, also: Edges, chain: seq<string>) {
    && chain != []
    && forall i | 0 < i < |chain| :: DependsOn(services, also, chain[i], chain[i - 1])
  }

  ghost predicate DependsOn(services: seq<Service>, also: Edges, n: string, d: string) {
    exists s :: s in services && s.name == n && d in EdgesOf(s, also)
  }

  /** What an edit to `changed` affects: those names, and whatever a chain of dependents leads to from one. */
  ghost predicate Affected(services: seq<Service>, also: Edges, changed: seq<string>, n: string) {
    exists chain :: Chain(services, also, chain) && chain[0] in changed && chain[|chain| - 1] == n
  }

  /** The affected names among the services and the changed names. */
  ghost function AffectedNames(services: seq<Service>, also: Edges,
      changed: seq<string>): (r: set<string>)
    ensures forall n :: n in r <==> Affected(services, also, changed, n)
  {
    var universe := (set n | n in changed) + NamesOf(services);
    assert forall n | Affected(services, also, changed, n) :: n in universe by {
      forall n | Affected(services, also, changed, n) ensures n in universe {
        var chain :| Chain(services, also, chain) && chain[0] in changed && chain[|chain| - 1] == n;
        assert |chain| > 1 ==> DependsOn(services, also, n, chain[|chain| - 2]);
      }
    }
    set n | n in universe && Affected(services, also, changed, n)
  }

  lemma AffectedStep(services: seq<Service>, also: Edges, changed: seq<string>, d: string, n: string)
    requires Affected(services, also, changed, d) && DependsOn(services, also, n, d)
    ensures Affected(services, also, changed, n)
  {
    var chain :| Chain(services, also, chain) && chain[0] in changed && chain[|chain| - 1] == d;
    assert Chain(services, also, chain + [n]);
    assert (chain + [n])[0] == chain[0];
  }

  /** A set of names that holds the changed ones and every dependent of its members holds all that is affected. */
  lemma AffectedIsLeast(services: seq<Service>, also: Edges, changed: seq<string>,
      names: set<string>, n: string)
    requires forall c | c in changed :: c in names
    requires forall d, m | d in names && DependsOn(services, also, m, d) :: m in names
    requires Affected(services, also, changed, n)
    ensures n in names
  {
    var chain :| Chain(services, also, chain) && chain[0] in changed && chain[|chain| - 1] == n;
    for i := 1 to |chain|
      invariant chain[i - 1] in names
    {
      assert DependsOn(services, also, chain[i], chain[i - 1]);
    }
  }

  /** The services of a list whose names are in a set, in order. */
  function Named(services: seq<Service>, names: set<string>): (r: seq<Service>)
    ensures forall s :: s in r <==> s in services && s.name in names
  {
    if services == [] then []
    else (if services[0].name in names then [services[0]] else []) + Named(services[1..], names)
  }

  type Dependents = map<string, seq<string>>

  function DependentsOf(m: Dependents, d: string): seq<string> {
    if d in m then m[d] else []
  }

  /** Turns the services' edges round. */
  method ReverseEdges(services: seq<Service>, also: Edges) returns (dependents: Dependents)
    ensures forall d, n :: n in DependentsOf(dependents, d) <==> DependsOn(services, also, n, d)
  {
    dependents := map[];
    for i := 0 to |services|
      invariant forall d, n :: n in DependentsOf(dependents, d) <==> DependsOn(services[..i], also, n, d)
    {
      var s := services[i];
      var names := EdgesOf(s, also);
      ghost var before := dependents;
      for j := 0 to |names|
        invariant forall d, n :: n in DependentsOf(dependents, d) <==>
          n in DependentsOf(before, d) || (n == s.name && d in names[..j])
      {
        var dep := names[j];
        dependents := dependents[dep := DependentsOf(dependents, dep) + [s.name]];
      }
      assert services[..i + 1] == services[..i] + [s];
      assert names[..|names|] == names;
    }
    assert services[..|services|] == services;
  }

  /** The names an edit to `changed` affects. */
  method FindAffected(services: seq<Service>, changed: seq<string>,
      also: Edges) returns (affected: set<string>)
    ensures forall n :: n in affected <==> Affected(services, also, changed, n)
  {
    var dependents := ReverseEdges(services, also);
    affected := {};
    var pending := changed;
    ghost var universe := (set n | n in changed) + NamesOf(services);
    forall c | c in changed ensures Affected(services, also, changed, c) {
      assert Chain(services, also, [c]);
    }
    while pending != []
      invariant affected <= universe && forall n | n in pending :: n in universe
      invariant forall n | n in affected || n in pending :: Affected(services, also, changed, n)
      invariant forall c | c in changed :: c in affected || c in pending
      invariant forall d, n | d in affected && DependsOn(services, also, n, d) :: n in affected || n in pending
      decreases universe - affected, |pending|
    {
      var name, rest := pending[|pending| - 1], pending[..|pending| - 1];
      assert forall n :: n in pending <==> n == name || n in rest;
      pending := rest;
      if name !in affected {
        var more := DependentsOf(dependents, name);
        forall n | n in more ensures Affected(services, also, changed, n) && n in universe {
          AffectedStep(services, also, changed, name, n);
        }
        affected := affected + {name};
        pending := rest + more;
        assert forall n :: n in pending <==> n in rest || n in more;
      }
    }
    forall n | Affected(services, also, changed, n) ensures n in affected {
      AffectedIsLeast(services, also, changed, affected, n);
    }
  }

  /** The services an edit to `changed` affects, in the order the services carry. */
  method FindDependents(services: seq<Service>, changed: seq<string>, also: Edges)
    returns (out: seq<Service>)
    ensures out == Named(services, AffectedNames(services, also, changed))
  {
    var affected := FindAffected(services, changed, also);
    assert affected == AffectedNames(services, also, changed);
    out := KeepNamed(services, affected);
  }

  method KeepNamed(services: seq<Service>, names: set<string>) returns (out: seq<Service>)
    ensures out == Named(services, names)
  {
    out := [];
    for i := 0 to |services|
      invariant out == Named(services[..i], names)
    {
      NamedOneMore(services, names, i);
      if services[i].name in names {
        out := out + [services[i]];
      }
    }
    assert services[..|services|] == services;
  }

  lemma {:induction false} NamedOneMore(services: seq<Service>, names: set<string>, i: nat)
    requires i < |services|
    ensures Named(services[..i + 1], names) == Named(services[..i], names) + Named([services[i]], names)
  {
    NamedConcat(services[..i], [services[i]], names);
    assert services[..i + 1] == services[..i] + [services[i]];
  }

  lemma {:induction false} NamedConcat(a: seq<Service>, b: seq<Service>, names: set<string>)
    ensures Named(a + b, names) == Named(a, names) + Named(b, names)
  {
    if a == [] {
      assert a + b == b;
    } else {
      NamedConcat(a[1..], b, names);
      assert (a + b)[1..] == a[1..] + b && (a + b)[0] == a[0];
      var head := if a[0].name in names then [a[0]] else [];
      assert head + (Named(a[1..], names) + Named(b, names)) == head + Named(a[1..], names) + Named(b, names);
    }
  }

  // Closures

  /** No services beside those a config names. */
  function NoReferences(): Edges {
    (s: Service) => []
  }

  /** The service of a name: of two, the later. */
  function WithName(services: seq<Service>, name: string): (s: Service)
    requires name in NamesOf(services)
    ensures s in services && s.name == name
  {
    var last := services[|services| - 1];
    if last.name == name then last
    else
      assert services == services[..|services| - 1] + [last];
      WithName(services[..|services| - 1], name)
  }

  /** It is the last of that name. */
  lemma {:induction false} WithNameIsLast(services: seq<Service>, name: string, i: nat)
    requires i < |services| && services[i].name == name
    requires forall j | i < j < |services| :: services[j].name != name
    ensures name in NamesOf(services) && WithName(services, name) == services[i]
  {
    if i < |services| - 1 {
      WithNameIsLast(services[..|services| - 1], name, i);
    }
  }

  /** Whether the config of a service names another. */
  predicate NamedBy(services: seq<Service>, n: string, d: string) {
    n in NamesOf(services) && d in WithName(services, n).edges
  }

  lemma WithNameNames(services: seq<Service>, n: string, d: string)
    requires n in NamesOf(services)
    ensures NamedBy(services, n, d) <==> d in WithName(services, n).edges
  {
  }

  /** A chain of services, each named by the config of the one before. */
  ghost predicate Downward(services: seq<Service>, chain: seq<string>) {
    && chain != []
    && forall i | 0 < i < |chain| :: NamedBy(services, chain[i - 1], chain[i])
  }

  /** What a service depends on: itself, and what the configs of those it depends on name. */
  ghost predicate Needed(services: seq<Service>, root: string, n: string) {
    exists chain :: Downward(services, chain) && chain[0] == root && chain[|chain| - 1] == n
  }

  lemma NeededStep(services: seq<Service>, root: string, n: string, d: string)
    requires Needed(services, root, n) && NamedBy(services, n, d)
    ensures Needed(services, root, d)
  {
    var chain :| Downward(services, chain) && chain[0] == root && chain[|chain| - 1] == n;
    assert Downward(services, chain + [d]);
    assert (chain + [d])[0] == root;
  }

  /** A set of names that holds a service and all that the configs of its members name holds all it depends on. */
  lemma NeededIsLeast(services: seq<Service>, root: string, names: set<string>, n: string)
    requires root in names && Needed(services, root, n)
    requires forall m, d | m in names && NamedBy(services, m, d) :: d in names
    ensures n in names
  {
    var chain :| Downward(services, chain) && chain[0] == root && chain[|chain| - 1] == n;
    for i := 1 to |chain|
      invariant chain[i - 1] in names
    {
      assert NamedBy(services, chain[i - 1], chain[i]);
    }
  }

  /** Every service a service depends on is there. */
  ghost predicate IsWhole(services: seq<Service>, root: string) {
    root in NamesOf(services) && forall n | Needed(services, root, n) :: n in NamesOf(services)
  }

  ghost function NeededNames(services: seq<Service>, root: string): set<string> {
    set n | n in NamesOf(services) && Needed(services, root, n)
  }

  /** A service and every service it depends on, in the order the services carry, unless one is not there. */
  method FindClosure(services: seq<Service>, root: string) returns (closure: Option<seq<Service>>)
    ensures closure.Some? <==> IsWhole(services, root)
    ensures closure.Some? ==> closure.value == Named(services, NeededNames(services, root))
  {
    hide Needed, NamedBy;
    var names := NamesOf(services);
    if root !in names {
      return None;
    }
    RootIsNeeded(services, root);
    var reachable := {root};
    var pending := [root];
    while pending != []
      invariant root in reachable && reachable <= names && forall n | n in pending :: n in reachable
      invariant forall n | n in reachable :: Needed(services, root, n)
      invariant forall n, d | n in reachable && n !in pending && NamedBy(services, n, d) ::
        d in reachable
      decreases names - reachable, |pending|
    {
      var name, rest := pending[|pending| - 1], pending[..|pending| - 1];
      assert forall n :: n in pending <==> n == name || n in rest;
      pending := rest;
      ghost var before := reachable;
      var deps := WithName(services, name).edges;
      for j := 0 to |deps|
        invariant before <= reachable <= names && rest <= pending
        invariant forall n | n in pending :: n in reachable
        invariant forall n | n in reachable :: Needed(services, root, n) && (n in before || n in pending)
        invariant forall d | d in deps[..j] :: d in reachable
        invariant reachable == before ==> pending == rest
      {
        assert deps[..j + 1] == deps[..j] + [deps[j]];
        assert NamedBy(services, name, deps[j]) by { WithNameNames(services, name, deps[j]); }
        NeededStep(services, root, name, deps[j]);
        if deps[j] !in reachable {
          if deps[j] !in names {
            return None;
          }
          reachable := reachable + {deps[j]};
          pending := pending + [deps[j]];
        }
      }
      assert deps[..|deps|] == deps;
      forall d | NamedBy(services, name, d) ensures d in reachable {
        WithNameNames(services, name, d);
      }
    }
    forall n | Needed(services, root, n) ensures n in reachable {
      NeededIsLeast(services, root, reachable, n);
    }
    assert reachable == NeededNames(services, root);
    var kept := KeepNamed(services, reachable);
    closure := Some(kept);
  }

  lemma RootIsNeeded(services: seq<Service>, root: string)
    ensures Needed(services, root, root)
  {
    assert Downward(services, [root]);
  }
}
