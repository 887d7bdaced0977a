/** The check engine as the program holds it: a checker that lives between runs, the results it keeps,
    and the bookkeeping of one run's loads. */
module CheckEngine {
  import opened CheckTypes
  import opened LeastLoads
  import opened CheckRun
  import opened CheckReport
  import opened Basics
  import opened BuildPlan
  import opened Order

  /** What discovering the services of a root gives. */
  datatype Discovery = Found(services: seq<Service>) | Undiscovered(error: LoadError)

  /** What a run finds on disk: the services, what loading each does, and any error of the TypeScript
      program the loads share. */
  datatype Disk = Disk(discovery: Discovery, loads: map<string, Load>, programErrors: seq<LoadError>)
  {
    ghost predicate Sound() {
      discovery.Found? ==> discovery.services != [] && Tree(discovery.services, loads).Valid()
    }
  }

  datatype Changes = Everything | Only(names: seq<string>)

  /** Where a checker looks. `target` is "", for every service, or the directory of one: runs are then of
      that service and what it depends on. */
  datatype Place = Place(schemasRoot: string, servicesRoot: string, target: string)

  /** What a checker holds between runs. `general` are the findings of the last run that no service owns. */
  datatype Memory = Memory(services: seq<Service>, schemas: Schemas, results: Results, general: seq<Diagnostic>)

  /** What it holds before its first run. */
  const NOTHING := Memory([], map[], map[], [])

  datatype RunEnd = RunEnd(memory: Memory, rewrote: seq<string>, checked: seq<string>)

  function BlockedOn(r: Result, names: set<string>): Result {
    r.(blockedBy := r.blockedBy + names)
  }

  function FailedOn(r: Result, names: set<string>): Result {
    r.(failed := true, blockedBy := r.blockedBy + names)
  }

  /** A service's result, as an object. `seen` holds the keys of its findings. */
  class ServiceCheck {
    var failed: bool
    var blockedBy: set<string>
    var diagnostics: seq<Diagnostic>
    var seen: set<Diagnostic>

    ghost predicate Valid()
      reads this
    {
      seen == set d | d in diagnostics :: d.Key()
    }

    ghost function View(): Result
      reads this
    {
      Result(failed, blockedBy, diagnostics)
    }

    constructor ()
      ensures Valid() && View() == NoResult
    {
      failed, blockedBy, diagnostics, seen := false, {}, [], {};
    }

    /** Records services whose failure or findings keep this one from loading. */
    method BlockOn(names: set<string>)
      requires Valid()
      modifies this
      ensures Valid() && View() == BlockedOn(old(View()), names)
    {
      blockedBy := blockedBy + names;
    }

    /** Records that the load failed, and the services whose failure it reports. */
    method FailOn(names: set<string>)
      requires Valid()
      modifies this
      ensures Valid() && View() == FailedOn(old(View()), names)
    {
      failed := true;
      blockedBy := blockedBy + names;
    }

    method Add(d: Diagnostic)
      requires Valid()
      modifies this
      ensures Valid() && View() == old(View()).Add(d)
    {
      if d.Key() in seen {
        assert exists e :: e in diagnostics && e.Key() == d.Key();
      } else {
        seen := seen + {d.Key()};
        diagnostics := diagnostics + [d];
      }
    }
  }

  /** The state that outlives a run. */
  class Checker {
    const at: Place
    var services: seq<Service>
    var schemas: Schemas
    var results: map<string, ServiceCheck>
    var general: seq<Diagnostic>
    var rewrote: seq<string>

    ghost predicate Valid()
      reads this`results, results.Values
    {
      && (forall n | n in results :: results[n].Valid())
      && (forall m, n | m in results && n in results && m != n :: results[m] != results[n])
    }

    ghost function Results(): CheckRun.Results
      reads this`results, results.Values
    {
      map n | n in results :: results[n].View()
    }

    lemma ResultsAreNamed()
      ensures Results().Keys == results.Keys
    {
    }

    ghost function Held(): Memory
      reads this, results.Values
    {
      Memory(services, schemas, Results(), general)
    }

    constructor (at: Place)
      ensures Valid() && Held() == NOTHING && this.at == at
    {
      this.at := at;
      services, schemas, results, general, rewrote := [], map[], map[], [], [];
    }

    /** The result of a service, made when it has none. */
    method ResultFor(name: string) returns (r: ServiceCheck)
      requires Valid()
      modifies this`results
      ensures Valid() && name in results && results[name] == r
      ensures Results() == if name in old(results) then old(Results()) else old(Results())[name := NoResult]
      ensures fresh(results.Values - old(results.Values))
      ensures forall n | n in old(results) :: n in results && results[n] == old(results[n])
      ensures fresh(r) || r in old(results.Values)
    {
      if name in results {
        r := results[name];
      } else {
        r := NewResult(name);
      }
    }

    method NewResult(name: string) returns (r: ServiceCheck)
      requires Valid()
      modifies this`results
      ensures Valid() && results == old(results)[name := r] && Results() == old(Results())[name := NoResult]
      ensures fresh(r) && fresh(results.Values - old(results.Values))
    {
      r := new ServiceCheck();
      results := results[name := r];
    }

    /** Records a finding of a service. */
    method AddTo(name: string, d: Diagnostic)
      requires Valid()
      modifies this`results, results.Values
      ensures Valid() && old(results.Keys) <= results.Keys
      ensures Results() == old(Results())[name := ResultOf(old(Results()), name).Add(d)]
      ensures fresh(results.Values - old(results.Values))
    {
      hide Result.Add, Results, Valid;
      ResultsAreNamed();
      var result := ResultFor(name);
      AddFinding(name, d);
    }

    method AddFinding(name: string, d: Diagnostic)
      requires Valid() && name in results
      modifies results[name]
      ensures Valid() && Results() == old(Results())[name := old(Results())[name].Add(d)]
    {
      hide Result.Add;
      results[name].Add(d);
    }

    /** Forgets the services no longer discovered. */
    method Forget()
      requires Valid()
      modifies this`schemas, this`results
      ensures Valid() && results.Values <= old(results.Values)
      ensures schemas == KnownSchemas(old(schemas), old(Results()).Keys, NamesOf(services))
      ensures Results() == KnownResults(old(Results()), NamesOf(services))
    {
      hide KnownSchemas, NamesOf;
      var discovered := NamesOf(services);
      assert Results().Keys == results.Keys;
      schemas := KnownSchemas(schemas, results.Keys, discovered);
      ForgetResults(discovered);
    }

    method ForgetResults(discovered: set<string>)
      requires Valid()
      modifies this`results
      ensures Valid() && results.Values <= old(results.Values)
      ensures Results() == KnownResults(old(Results()), discovered)
    {
      results := map n | n in results && n in discovered :: results[n];
    }

    /** Forgets what one service was found to be. */
    method Renew(name: string)
      requires Valid()
      modifies this`schemas, this`results
      ensures Valid() && fresh(results.Values - old(results.Values))
      ensures schemas == old(schemas) - {name}
      ensures Results() == old(Results())[name := NoResult]
    {
      schemas := schemas - {name};
      var made := NewResult(name);
    }

    /** Forgets the services no longer discovered, and what the services to check were found to be. */
    method Reset(toCheck: seq<Service>)
      requires Valid()
      modifies this`schemas, this`results
      ensures Valid() && fresh(results.Values - old(results.Values))
      ensures schemas == KeptSchemas(old(schemas), old(Results()).Keys, NamesOf(services), toCheck)
      ensures Results() == KeptResults(old(Results()), NamesOf(services), toCheck)
    {
      hide Without, Renewed, KnownSchemas, KnownResults, NamesOf;
      Forget();
      ghost var keptSchemas, kept := schemas, Results();
      RenewNone(schemas, Results(), toCheck);
      for i := 0 to |toCheck|
        invariant Valid() && fresh(results.Values - old(results.Values))
        invariant schemas == Without(keptSchemas, NamesOf(toCheck[..i]))
        invariant Results() == Renewed(kept, NamesOf(toCheck[..i]))
      {
        RenewOneMore(keptSchemas, kept, toCheck, i);
        Renew(toCheck[i].name);
      }
      assert toCheck[..|toCheck|] == toCheck;
    }

    /** One run's loads, from what the last run kept. */
    method Load(toCheck: seq<Service>, tree: Tree) returns (checked: seq<string>)
      requires Valid() && tree.Valid() && tree.services == services && forall s | s in toCheck :: s in services
      modifies this, results.Values
      ensures Valid() && fresh(results.Values - old(results.Values))
      ensures services == old(services)
      ensures var st := CheckRun.Run(old(schemas), old(Results()), tree, toCheck);
        schemas == st.schemas && Results() == st.results && rewrote == st.rewrote && checked == st.checked
    {
      hide CheckAll, KeptSchemas, KeptResults;
      rewrote := [];
      Reset(toCheck);
      var load := new CheckLoad(this, tree);
      assert load.View() == Start(old(schemas), old(Results()), tree, toCheck);
      load.CheckEach(toCheck);
      checked := load.checked;
      assert load.View() == CheckRun.Run(old(schemas), old(Results()), tree, toCheck);
    }

    /** Checks everything in scope, or what the changed services affect of it, and reports all of it. */
    method Run(changed: Changes, disk: Disk) returns (report: Report)
      requires Valid() && disk.Sound()
      requires changed.Only? && services != [] ==> Tree(services, disk.loads).Valid()
      modifies this, results.Values
      ensures Valid() && fresh(results.Values - old(results.Values))
      ensures var end := AfterRun(old(Held()), at, changed, disk);
        && Held() == end.memory && rewrote == end.rewrote
        && Reports(report, general, Results(), end.checked, ReportedScope(services, at))
    {
      hide AfterDiscovery, Reports, Tree.Valid, ScopeOf, FoundOn, Findings;
      var all := changed.Everything? || services == [];
      Discover(all, disk);
      if services == [] {
        NoneInScope(at);
        report := Fill([], []);
        return;
      }
      report := RunDiscovered(if all then Everything else changed, disk);
    }

    /** The part of a run after its services are discovered. */
    method RunDiscovered(changed: Changes, disk: Disk) returns (report: Report)
      requires Valid() && services != [] && Tree(services, disk.loads).Valid()
      requires rewrote == [] && general == []
      modifies this, results.Values
      ensures Valid() && fresh(results.Values - old(results.Values)) && services == old(services)
      ensures var end := AfterDiscovery(old(Held()), at, changed, disk);
        && Held() == end.memory && rewrote == end.rewrote
        && Reports(report, general, Results(), end.checked, ReportedScope(services, at))
    {
      hide CheckRun.Run, Reports, ToCheck, ScopeOf, NamesOf, Tree.Valid, Results, Valid, RunOfScope, NoClosure;
      var scope := FindScope();
      if scope.None? {
        report := Fill([], []);
      } else {
        ScopeIsDiscovered(services, at);
        report := RunScope(scope.value, changed, disk);
      }
    }

    /** The part of a run that loads services. */
    method RunScope(scope: seq<Service>, changed: Changes, disk: Disk) returns (report: Report)
      requires Valid() && Tree(services, disk.loads).Valid() && forall s | s in scope :: s in services
      modifies this, results.Values
      ensures Valid() && fresh(results.Values - old(results.Values)) && services == old(services)
      ensures var end := RunOfScope(old(Held()), at, scope, changed, disk);
        && Held() == end.memory && rewrote == end.rewrote
        && Reports(report, general, Results(), end.checked, scope)
    {
      hide CheckRun.Run, Reports, ToCheck, ScopeOf, NamesOf, Tree.Valid, Results, Valid, FindingsOfAll;
      SelectedIsDiscovered(services, schemas, changed, scope);
      var toCheck := Select(changed, scope);
      var checked := Load(toCheck, Tree(services, disk.loads));
      general := FindingsOfAll(disk.programErrors, at.servicesRoot);
      report := Fill(checked, scope);
    }

    /** Discovers the services again when a run is of all of them. */
    method Discover(all: bool, disk: Disk)
      requires Valid() && disk.Sound()
      requires all || (services != [] && Tree(services, disk.loads).Valid())
      modifies this
      ensures Valid() && results.Values <= old(results.Values)
      ensures services == if all then FoundOn(disk) else old(services)
      ensures services == [] ==> disk.discovery.Undiscovered? && Held() == Undone(at, disk.discovery.error)
      ensures services != [] ==>
        Tree(services, disk.loads).Valid() && Held() == old(Held()).(services := services, general := [])
      ensures rewrote == []
    {
      hide Tree.Valid, Results, Findings;
      general, rewrote := [], [];
      if all {
        if disk.discovery.Undiscovered? {
          general := Findings(disk.discovery.error, at.schemasRoot);
          services, schemas, results := [], map[], map[];
          ResultsAreNamed();
        } else {
          services := disk.discovery.services;
        }
      }
    }

    /** The services a run reports: every one, or the target's and all it depends on. */
    method FindScope() returns (scope: Option<seq<Service>>)
      requires Valid() && services != []
      modifies this`general
      ensures scope == ScopeOf(services, at)
      ensures general == if scope.None? then NoClosure(services, at) else old(general)
    {
      if at.target == "" {
        return Some(services);
      }
      var root := FindRoot(services, at.target);
      scope := FindClosure(services, root);
      if scope.None? {
        general := NoClosure(services, at);
      }
    }

    /** The services of the scope to check: all, or those the changed ones affect. */
    method Select(changed: Changes, scope: seq<Service>) returns (toCheck: seq<Service>)
      ensures toCheck == ToCheck(services, schemas, changed, scope)
    {
      if changed.Everything? {
        return scope;
      }
      var dependents := FindDependents(services, changed.names, ReferencesIn(schemas));
      var names := NamesOf(scope);
      toCheck := KeepNamed(dependents, names);
      NamedTwice(services, AffectedNames(services, ReferencesIn(schemas), changed.names), names);
    }

    /** A report of some services: a status for each, and the general findings before theirs. */
    method Fill(checked: seq<string>, scope: seq<Service>) returns (report: Report)
      requires Valid()
      ensures Reports(report, general, Results(), checked, scope)
    {
      hide Valid, Results, StatusOf, ResultOf;
      var diagnostics := general;
      var entries: seq<ServiceReport> := [];
      for i := 0 to |scope|
        invariant |entries| == i
        invariant forall j | 0 <= j < i ::
          entries[j] == ServiceReport(scope[j].name, StatusOf(Results(), scope[j].name))
        invariant diagnostics == DiagnosticsOf(general, Results(), scope[..i])
      {
        var name := scope[i].name;
        var status := StatusNow(name);
        entries := entries + [ServiceReport(name, status)];
        assert scope[..i + 1][..i] == scope[..i];
        var found := FindingsNow(name);
        diagnostics := diagnostics + found;
      }
      assert scope[..|scope|] == scope;
      ErrorsCount(diagnostics);
      var errors := Errors(diagnostics);
      report := Report(errors == 0, checked, errors, |diagnostics| - errors, entries, diagnostics);
    }

    method FindingsNow(name: string) returns (found: seq<Diagnostic>)
      requires Valid()
      ensures found == ResultOf(Results(), name).diagnostics
    {
      found := if name in results then results[name].diagnostics else [];
    }

    method StatusNow(name: string) returns (status: Status)
      requires Valid()
      ensures status == StatusOf(Results(), name)
    {
      status := Ok;
      if name in results {
        var result := results[name];
        if Errors(result.diagnostics) > 0 {
          status := Failing;
        } else if result.failed {
          var names := SortNames(result.blockedBy - {name});
          status := BlockedBy(names);
        }
      }
    }
  }

  lemma RenewNone(schemas: Schemas, results: CheckRun.Results, toCheck: seq<Service>)
    ensures Without(schemas, NamesOf(toCheck[..0])) == schemas
    ensures Renewed(results, NamesOf(toCheck[..0])) == results
  {
  }

  lemma RenewOneMore(schemas: Schemas, results: CheckRun.Results, toCheck: seq<Service>, i: nat)
    requires i < |toCheck|
    ensures Without(schemas, NamesOf(toCheck[..i + 1])) == Without(schemas, NamesOf(toCheck[..i])) - {toCheck[i].name}
    ensures Renewed(results, NamesOf(toCheck[..i + 1]))
      == Renewed(results, NamesOf(toCheck[..i]))[toCheck[i].name := NoResult]
  {
  }

  /** The edges a service has beside its config's, by the schema last recorded of it. */
  function ReferencesIn(schemas: Schemas): Edges {
    (s: Service) => if s.name in schemas then schemas[s.name].references else []
  }

  /** The services a run checks. */
  ghost function ToCheck(services: seq<Service>, schemas: Schemas, changed: Changes,
      scope: seq<Service>): seq<Service> {
    match changed
    case Everything => scope
    case Only(names) => Named(services, AffectedNames(services, ReferencesIn(schemas), names) * NamesOf(scope))
  }

  lemma SelectedIsDiscovered(services: seq<Service>, schemas: Schemas, changed: Changes, scope: seq<Service>)
    requires forall s | s in scope :: s in services
    ensures forall s | s in ToCheck(services, schemas, changed, scope) :: s in services
  {
  }

  lemma {:induction false} NamedTwice(services: seq<Service>, a: set<string>, b: set<string>)
    ensures Named(Named(services, a), b) == Named(services, a * b)
  {
    if services != [] {
      NamedTwice(services[1..], a, b);
      var head := if services[0].name in a then [services[0]] else [];
      NamedConcat(head, Named(services[1..], a), b);
    }
  }

  /** The name of the last service in a directory, or "". */
  function RootOf(services: seq<Service>, dir: string): string {
    if services == [] then ""
    else
      var last := services[|services| - 1];
      if last.dir == dir then last.name else RootOf(services[..|services| - 1], dir)
  }

  lemma {:induction false} RootIsLast(services: seq<Service>, dir: string, i: nat)
    requires i < |services| && services[i].dir == dir && forall j | i < j < |services| :: services[j].dir != dir
    ensures RootOf(services, dir) == services[i].name
  {
    if i < |services| - 1 {
      RootIsLast(services[..|services| - 1], dir, i);
    }
  }

  method FindRoot(services: seq<Service>, dir: string) returns (root: string)
    ensures root == RootOf(services, dir)
  {
    root := "";
    for i := 0 to |services|
      invariant root == RootOf(services[..i], dir)
    {
      assert services[..i + 1][..i] == services[..i];
      if services[i].dir == dir {
        root := services[i].name;
      }
    }
    assert services[..|services|] == services;
  }

  /** The services in scope: every one, or the target's and all it depends on when they are all there. */
  ghost function ScopeOf(services: seq<Service>, at: Place): Option<seq<Service>> {
    if services == [] then None
    else if at.target == "" then Some(services)
    else
      var root := RootOf(services, at.target);
      if IsWhole(services, root) then Some(Named(services, NeededNames(services, root))) else None
  }

  ghost function ReportedScope(services: seq<Service>, at: Place): seq<Service> {
    if ScopeOf(services, at).Some? then ScopeOf(services, at).value else []
  }

  lemma ScopeIsDiscovered(services: seq<Service>, at: Place)
    requires ScopeOf(services, at).Some?
    ensures services != [] && forall s | s in ScopeOf(services, at).value :: s in services
  {
  }

  /** What is in scope: without a target every service, if there are any; with one exactly the services its closure
      reaches through configs, when there is a service in its directory and none of those it reaches is missing. */
  lemma ScopeMeans(services: seq<Service>, at: Place)
    ensures at.target == "" ==> ScopeOf(services, at) == if services == [] then None else Some(services)
    ensures at.target != "" ==>
      var root, names := RootOf(services, at.target), NamesOf(services);
      ScopeOf(services, at).Some? <==>
        services != [] && root in names && forall n | Needed(services, root, n) :: n in names
    ensures at.target != "" && ScopeOf(services, at).Some? ==>
      var root, scope := RootOf(services, at.target), ScopeOf(services, at).value;
      forall s :: s in scope <==> s in services && Needed(services, root, s.name)
  {
    hide Needed, RootOf;
  }

  lemma NoneInScope(at: Place)
    ensures ScopeOf([], at).None?
  {
  }

  function FoundOn(disk: Disk): seq<Service> {
    if disk.discovery.Found? then disk.discovery.services else []
  }

  /** What a checker holds after a run that discovers no services. */
  function Undone(at: Place, error: LoadError): Memory {
    Memory([], map[], map[], Findings(error, at.schemasRoot))
  }

  /** What a run finds when the target, or a service it depends on, is not there. */
  function NoClosure(services: seq<Service>, at: Place): seq<Diagnostic> {
    Findings(Plain("no closure of " + RootOf(services, at.target)), at.target)
  }

  /** What a run makes of what the checker held. A run of some services by a checker that holds none is a
      run of all of them. */
  ghost function AfterRun(m: Memory, at: Place, changed: Changes, disk: Disk): RunEnd
    requires disk.Sound() && (changed.Only? && m.services != [] ==> Tree(m.services, disk.loads).Valid())
  {
    var all := changed.Everything? || m.services == [];
    var services := if all then FoundOn(disk) else m.services;
    if services == [] then RunEnd(Undone(at, disk.discovery.error), [], [])
    else AfterDiscovery(m.(services := services, general := []), at, if all then Everything else changed, disk)
  }

  /** What a run makes of it when it knows its services. */
  ghost function AfterDiscovery(m: Memory, at: Place, changed: Changes, disk: Disk): RunEnd
    requires Tree(m.services, disk.loads).Valid()
  {
    match ScopeOf(m.services, at)
    case None => RunEnd(m.(general := NoClosure(m.services, at)), [], [])
    case Some(scope) =>
      ScopeIsDiscovered(m.services, at);
      RunOfScope(m, at, scope, changed, disk)
  }

  ghost function RunOfScope(m: Memory, at: Place, scope: seq<Service>, changed: Changes, disk: Disk): (end: RunEnd)
    requires Tree(m.services, disk.loads).Valid() && forall s | s in scope :: s in m.services
    ensures end.memory.services == m.services
  {
    SelectedIsDiscovered(m.services, m.schemas, changed, scope);
    var toCheck := ToCheck(m.services, m.schemas, changed, scope);
    var st := CheckRun.Run(m.schemas, m.results, Tree(m.services, disk.loads), toCheck);
    var general := FindingsOfAll(disk.programErrors, at.servicesRoot);
    RunEnd(Memory(m.services, st.schemas, st.results, general), st.rewrote, st.checked)
  }

  /** The books of a run: which services are loading, which are done, and in what order each was started. */
  class CheckLoad {
    const checker: Checker
    const tree: Tree
    var loading: set<string>
    var done: set<string>
    var checked: seq<string>

    constructor (checker: Checker, tree: Tree)
      ensures this.checker == checker && this.tree == tree
      ensures loading == {} && done == {} && checked == []
    {
      this.checker, this.tree := checker, tree;
      loading, done, checked := {}, {}, [];
    }

    ghost predicate Valid()
      reads this, checker, checker.results.Values
    {
      checker.Valid() && tree.Valid() && checker.services == tree.services
    }

    /** The run's state, as the functions of `CheckRun` take it. */
    ghost function View(): State
      reads this, checker, checker.results.Values
    {
      State(checker.schemas, checker.Results(), checker.rewrote, loading, done, checked)
    }

    /** Checks each service in turn. */
    method CheckEach(services: seq<Service>)
      requires Valid() && forall s | s in services :: s in tree.services
      modifies this, checker, checker.results.Values
      ensures Valid() && checker.services == old(checker.services)
      ensures View() == CheckAll(tree, old(View()), services)
      ensures fresh(checker.results.Values - old(checker.results.Values))
    {
      for i := 0 to |services|
        invariant Valid() && fresh(checker.results.Values - old(checker.results.Values))
        invariant CheckAll(tree, View(), services[i..]) == CheckAll(tree, old(View()), services)
      {
        assert services[i..][0] == services[i] && services[i..][1..] == services[i + 1..];
        Check(services[i]);
      }
    }

    /** Loads a service the run has not started, and everything it asks for. */
    method Check(service: Service)
      requires Valid() && service in tree.services
      modifies this, checker, checker.results.Values
      ensures Valid() && checker.general == old(checker.general)
      ensures View() == CheckRun.Check(tree, old(View()), service)
      ensures fresh(checker.results.Values - old(checker.results.Values))
      decreases Unstarted(tree, View()), 0
    {
      if service.name in done || service.name in loading {
        return;
      }
      ghost var before := View();
      Begin(service);
      assert service.name in Unstarted(tree, before) && service.name !in Unstarted(tree, View());
      assert Unstarted(tree, View()) < Unstarted(tree, before);
      ghost var (reading, read) := CheckRun.ReadAll(tree, View(), tree.loads[service.name].asks, []);
      CheckUnfolds(tree, before, service, reading, read);
      Load(service);
    }

    method Load(service: Service)
      requires Valid() && service in tree.services && service.name in checker.results
      modifies this, checker, checker.results.Values
      ensures Valid() && checker.general == old(checker.general)
      ensures var (reading, read) := CheckRun.ReadAll(tree, old(View()), tree.loads[service.name].asks, []);
        View() == Leave(CheckRun.Record(tree, read, service, reading), service.name)
      ensures fresh(checker.results.Values - old(checker.results.Values))
      decreases Unstarted(tree, View()), 3
    {
      hide CheckRun.Record, CheckRun.ReadAll, Checker.Results;
      checker.ResultsAreNamed();
      var reading := ReadDependencies(tree.loads[service.name].asks);
      assert service.name in View().results;
      checker.ResultsAreNamed();
      RecordLoad(service, reading);
      End(service);
    }

    method End(service: Service)
      requires Valid()
      modifies this`loading, this`done
      ensures Valid() && View() == Leave(old(View()), service.name)
    {
      loading := loading - {service.name};
      done := done + {service.name};
    }

    method Begin(service: Service)
      requires Valid()
      modifies this`loading, this`checked, checker`results
      ensures Valid() && View() == Enter(old(View()), service.name) && service.name in checker.results
      ensures fresh(checker.results.Values - old(checker.results.Values))
    {
      loading := loading + {service.name};
      checked := checked + [service.name];
      var result := checker.ResultFor(service.name);
    }

    /** The part of a load that asks for other services, up to the first that is not ready. */
    method ReadDependencies(asks: seq<string>) returns (reading: Reading)
      requires Valid()
      modifies this, checker, checker.results.Values
      ensures Valid() && checker.general == old(checker.general)
      ensures (reading, View()) == CheckRun.ReadAll(tree, old(View()), asks, [])
      ensures fresh(checker.results.Values - old(checker.results.Values))
      decreases Unstarted(tree, View()), 2
    {
      var got: seq<Schema> := [];
      for i := 0 to |asks|
        invariant Valid() && checker.general == old(checker.general)
        invariant loading == old(loading) && old(done) <= done
        invariant CheckRun.ReadAll(tree, old(View()), asks, []) == CheckRun.ReadAll(tree, View(), asks[i..], got)
        invariant fresh(checker.results.Values - old(checker.results.Values))
      {
        assert Unstarted(tree, View()) <= Unstarted(tree, old(View()));
        assert asks[i..][0] == asks[i] && asks[i..][1..] == asks[i + 1..];
        var answer := Dependency(asks[i]);
        if !answer.Ready? {
          return Stopped(asks[i], answer);
        }
        got := got + [answer.schema];
      }
      reading := Read(got);
    }

    /** What a load that asks for `name` is told. */
    method Dependency(name: string) returns (answer: Answer)
      requires Valid()
      modifies this, checker, checker.results.Values
      ensures Valid() && checker.general == old(checker.general)
      ensures (answer, View()) == CheckRun.Dependency(tree, old(View()), name)
      ensures fresh(checker.results.Values - old(checker.results.Values))
      decreases Unstarted(tree, View()), 1
    {
      hide CheckRun.Check, AnswerFor;
      if name !in done && name !in loading && name !in checker.schemas && IsService(tree, name) {
        if name !in checker.results || !checker.results[name].failed {
          Check(ServiceNamed(tree, name));
        }
      }
      answer := AnswerNow(name);
    }

    method AnswerNow(name: string) returns (answer: Answer)
      requires Valid()
      ensures answer == AnswerFor(View(), name)
    {
      if name in checker.schemas {
        answer := Ready(checker.schemas[name]);
      } else if name in checker.results && checker.results[name].failed {
        answer := Blocked;
      } else if name in loading {
        answer := ReadWhileItLoads;
      } else {
        answer := NotFound;
      }
    }

    /** The part of a load after its dependencies are read: its schema or its failure, and its findings. */
    method RecordLoad(service: Service, reading: Reading)
      requires Valid() && service in tree.services && service.name in checker.results
      modifies checker`schemas, checker`results, checker`rewrote, checker.results.Values
      ensures Valid()
      ensures View() == CheckRun.Record(tree, old(View()), service, reading)
      ensures fresh(checker.results.Values - old(checker.results.Values))
    {
      if reading.Stopped? {
        RecordFailure(service, [], Wrapped("reading " + reading.name, ErrorOf(reading)));
        return;
      }
      var outcome := tree.loads[service.name].finish(reading.schemas);
      var warnings := AnchoredAll(service.dir, outcome.warnings, Warning);
      match outcome.verdict
      case Refused(error) =>
        RecordFailure(service, warnings, error);
      case Loaded(schema, extra, changed) =>
        RecordSchema(service, schema, changed, warnings + AnchoredAll(service.dir, extra, Error));
    }

    method RecordSchema(service: Service, schema: Schema, changed: bool, findings: seq<Diagnostic>)
      requires Valid() && service in tree.services && service.name in checker.results
      modifies checker`schemas, checker`results, checker`rewrote, checker.results.Values
      ensures Valid()
      ensures View() == old(View()).(
        schemas := old(checker.schemas)[service.name := schema],
        results := CheckRun.Attribute(tree.services, old(checker.Results()), service.name, findings),
        rewrote := if changed then old(checker.rewrote) + [service.name] else old(checker.rewrote))
      ensures fresh(checker.results.Values - old(checker.results.Values))
    {
      hide Checker.Results, CheckRun.Attribute;
      checker.schemas := checker.schemas[service.name := schema];
      if changed {
        checker.rewrote := checker.rewrote + [service.name];
      }
      AttributeFindings(service, findings);
    }

    method RecordFailure(service: Service, warnings: seq<Diagnostic>, error: LoadError)
      requires Valid() && service in tree.services && service.name in checker.results
      modifies checker`results, checker.results.Values
      ensures Valid()
      ensures View() == CheckRun.Fail(tree, old(View()), service, warnings, error)
      ensures fresh(checker.results.Values - old(checker.results.Values))
    {
      hide Checker.Results, CheckRun.Attribute, Findings, BlockersOf;
      checker.ResultsAreNamed();
      FailResult(service, BlockersOf(error));
      AttributeFindings(service, warnings + Findings(error, service.dir));
    }

    method FailResult(service: Service, blockers: set<string>)
      requires Valid() && service.name in checker.results
      modifies checker.results[service.name]
      ensures Valid()
      ensures var before := old(checker.Results());
        checker.Results() == before[service.name := FailedOn(before[service.name], blockers)]
    {
      hide FailedOn;
      checker.results[service.name].FailOn(blockers);
    }

    /** Records each finding under the service whose file it is in. */
    method AttributeFindings(service: Service, findings: seq<Diagnostic>)
      requires Valid() && service.name in checker.results
      modifies checker`results, checker.results.Values
      ensures Valid()
      ensures checker.Results() == CheckRun.Attribute(tree.services, old(checker.Results()), service.name, findings)
      ensures fresh(checker.results.Values - old(checker.results.Values))
    {
      for i := 0 to |findings|
        invariant Valid() && service.name in checker.results
        invariant fresh(checker.results.Values - old(checker.results.Values))
        invariant CheckRun.Attribute(tree.services, old(checker.Results()), service.name, findings)
          == CheckRun.Attribute(tree.services, checker.Results(), service.name, findings[i..])
      {
        assert findings[i..][0] == findings[i] && findings[i..][1..] == findings[i + 1..];
        AttributeFinding(service, findings[i]);
      }
    }

    method Block(service: Service, owner: string)
      requires Valid() && service.name in checker.results
      modifies checker.results[service.name]
      ensures Valid()
      ensures var before := old(checker.Results());
        checker.Results() == before[service.name := BlockedOn(before[service.name], {owner})]
    {
      hide BlockedOn;
      checker.results[service.name].BlockOn({owner});
    }

    method AttributeFinding(service: Service, d: Diagnostic)
      requires Valid() && service.name in checker.results
      modifies checker`results, checker.results.Values
      ensures Valid() && service.name in checker.results
      ensures checker.Results() == CheckRun.AttributeOne(tree.services, old(checker.Results()), service.name, d)
      ensures fresh(checker.results.Values - old(checker.results.Values))
    {
      var owner := FindingOwner(tree.services, service.name, d);
      if owner != service.name {
        Block(service, owner);
      }
      checker.AddTo(owner, d.(service := owner));
    }
  }
}
