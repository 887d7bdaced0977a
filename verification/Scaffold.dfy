/** Whether a stack serves an API whose implementation is missing. */
module Scaffold {

  datatype Kind = API | Stack | Other

  /** A discovered service: its kind, the APIs it calls, and whether its own implementation is missing. */
  datatype Service = Service(name: string, kind: Kind, calls: seq<string>, needsScaffold: bool)

  type Services = map<string, Service>

  predicate IsAPI(byName: Services, name: string) {
    name in byName && byName[name].kind == API
  }

  /** A chain of calls from a recorded reference, every service on it a known API. */
  ghost predicate Calls(byName: Services, references: seq<string>, chain: seq<string>) {
    && chain != [] && chain[0] in references
    && (forall i | 0 <= i < |chain| :: IsAPI(byName, chain[i]))
    && forall i | 0 < i < |chain| :: chain[i] in byName[chain[i - 1]].calls
  }

  ghost predicate Serves(byName: Services, references: seq<string>, name: string) {
    exists chain :: Calls(byName, references, chain) && chain[|chain| - 1] == name
  }

  lemma ServesCallees(byName: Services, references: seq<string>, name: string, callee: string)
    requires Serves(byName, references, name) && callee in byName[name].calls && IsAPI(byName, callee)
    ensures Serves(byName, references, callee)
  {
    var chain :| Calls(byName, references, chain) && chain[|chain| - 1] == name;
    assert Calls(byName, references, chain + [callee]);
  }

  lemma ServesReference(byName: Services, references: seq<string>, r: string)
    requires r in references && IsAPI(byName, r)
    ensures Serves(byName, references, r)
  {
    assert Calls(byName, references, [r]);
  }

  lemma ServedIsHeld(byName: Services, references: seq<string>, held: set<string>, name: string)
    requires forall r | r in references && IsAPI(byName, r) :: r in held
    requires forall n, c | n in held && IsAPI(byName, n) && c in byName[n].calls && IsAPI(byName, c) :: c in held
    requires Serves(byName, references, name)
    ensures name in held
  {
    var chain :| Calls(byName, references, chain) && chain[|chain| - 1] == name;
    for i := 1 to |chain|
      invariant chain[i - 1] in held
    {
      assert chain[i] in byName[chain[i - 1]].calls;
    }
  }

  lemma NoneServedNeeds(byName: Services, references: seq<string>, held: set<string>)
    requires forall r | r in references && IsAPI(byName, r) :: r in held
    requires forall n, c | n in held && IsAPI(byName, n) && c in byName[n].calls && IsAPI(byName, c) :: c in held
    requires forall n | n in held :: IsAPI(byName, n) && !byName[n].needsScaffold
    ensures !exists n :: Serves(byName, references, n) && byName[n].needsScaffold
  {
    forall n | Serves(byName, references, n) ensures !byName[n].needsScaffold {
      ServedIsHeld(byName, references, held, n);
    }
  }

  /** Services by name; of two with one name, the later is kept. */
  function Latest(services: seq<Service>): (r: Services)
    ensures forall n :: n in r <==> exists s :: s in services && s.name == n
    ensures forall n | n in r :: r[n] in services && r[n].name == n
  {
    if services == [] then map[]
    else
      var last := services[|services| - 1];
      assert services == services[..|services| - 1] + [last];
      Latest(services[..|services| - 1])[last.name := last]
  }

  /** Of the services of one name, the last is kept. */
  lemma {:induction false} LatestIsLast(services: seq<Service>, i: nat)
    requires i < |services| && forall j | i < j < |services| :: services[j].name != services[i].name
    ensures services[i].name in Latest(services) && Latest(services)[services[i].name] == services[i]
  {
    if i < |services| - 1 {
      LatestIsLast(services[..|services| - 1], i);
    }
  }

  method ByName(services: seq<Service>) returns (byName: Services)
    ensures byName == Latest(services)
  {
    byName := map[];
    for i := 0 to |services|
      invariant byName == Latest(services[..i])
    {
      assert services[..i + 1][..i] == services[..i];
      byName := byName[services[i].name := services[i]];
    }
    assert services[..|services|] == services;
  }

  /** Whether service is a stack that serves an API that needs a scaffold: one its last build recorded as
      a reference, or one called, through known APIs, from such a reference. */
  method NeedsImplementationScaffold(service: Service, services: seq<Service>, references: seq<string>)
    returns (needed: bool)
    ensures needed <==>
      service.kind == Stack && exists n :: Serves(Latest(services), references, n) && Latest(services)[n].needsScaffold
  {
    if service.kind != Stack {
      return false;
    }
    var byName := ByName(services);
    needed := AnyNeeded(byName, references);
  }

  method AnyNeeded(byName: Services, references: seq<string>) returns (needed: bool)
    ensures needed <==> exists n :: Serves(byName, references, n) && byName[n].needsScaffold
  {
    var seen: set<string> := {};
    var queue := references;
    hide Calls;
    forall r | r in references && IsAPI(byName, r) ensures Serves(byName, references, r) {
      ServesReference(byName, references, r);
    }
    while queue != []
      invariant seen <= byName.Keys
      invariant forall n | n in queue && IsAPI(byName, n) :: Serves(byName, references, n)
      invariant forall n | n in seen :: IsAPI(byName, n) && Serves(byName, references, n) && !byName[n].needsScaffold
      invariant forall r | r in references && IsAPI(byName, r) :: r in seen || r in queue
      invariant forall n, c | n in seen && c in byName[n].calls && IsAPI(byName, c) :: c in seen || c in queue
      decreases byName.Keys - seen, |queue|
    {
      var name, rest := queue[0], queue[1..];
      assert forall n :: n in queue <==> n == name || n in rest;
      queue := rest;
      if name !in seen && IsAPI(byName, name) {
        seen := seen + {name};
        if byName[name].needsScaffold {
          return true;
        }
        var calls := byName[name].calls;
        forall c | c in calls && IsAPI(byName, c) ensures Serves(byName, references, c) {
          ServesCallees(byName, references, name, c);
        }
        queue := rest + calls;
        assert forall n :: n in queue <==> n in rest || n in calls;
      }
    }
    NoneServedNeeds(byName, references, seen);
    needed := false;
  }
}
