/** Blame across runs: what a run keeps of the failures the ones before it recorded. */
module CheckBlame {
  import opened CheckTypes
  import opened LeastLoads
  import opened CheckRun
  import opened CheckProofs
  import opened CheckScope
  import opened CheckTheorems
  import opened CheckReport
  import opened BuildPlan

  /** A service, or one it depends on: by its config, or by what else is given for it. */
  ghost predicate IsNear(services: seq<Service>, also: Edges, n: string, d: string) {
    d == n || DependsOn(services, also, n, d)
  }

  ghost predicate OwnersAreNear(services: seq<Service>, also: Edges, n: string, findings: seq<Diagnostic>) {
    forall d | d in findings :: IsNear(services, also, n, FindingOwner(services, n, d))
  }

  /** What a load finds is in its own service's files or in those of services it depends on, and no other
      service's failure is the cause of its own. */
  ghost predicate OutcomeIsNear(services: seq<Service>, also: Edges, s: Service, outcome: Outcome) {
    && OwnersAreNear(services, also, s.name, AnchoredAll(s.dir, outcome.warnings, Warning))
    && match outcome.verdict
       case Refused(error) =>
         OwnersAreNear(services, also, s.name, Findings(error, s.dir))
         && forall d | d in BlockersOf(error) :: IsNear(services, also, s.name, d)
       case Loaded(_, extra, _) => OwnersAreNear(services, also, s.name, AnchoredAll(s.dir, extra, Error))
  }

  ghost predicate FindingsAreNear(t: Tree, also: Edges) {
    forall s, schemas {:trigger t.loads[s.name].finish(schemas)} | s in t.services && s.name in t.loads ::
      OutcomeIsNear(t.services, also, s, t.loads[s.name].finish(schemas))
  }

  /** Whatever blocks a service of a scope is near it. */
  ghost predicate BlockersAreNear(services: seq<Service>, also: Edges, scope: set<string>, results: Results) {
    forall n, d | n in scope && n in results && d in results[n].blockedBy :: IsNear(services, also, n, d)
  }

  // Blockers stay near

  lemma {:induction false} AttributeNear(services: seq<Service>, also: Edges, scope: set<string>, results: Results,
      name: string, findings: seq<Diagnostic>)
    requires BlockersAreNear(services, also, scope, results) && OwnersAreNear(services, also, name, findings)
    ensures BlockersAreNear(services, also, scope, Attribute(services, results, name, findings))
    decreases |findings|
  {
    hide FindingOwner, IsNear;
    if findings != [] {
      assert findings[0] in findings;
      AttributeOneNear(services, also, scope, results, name, findings[0]);
      AttributeNear(services, also, scope, AttributeOne(services, results, name, findings[0]), name, findings[1..]);
    }
  }

  lemma AttributeOneNear(services: seq<Service>, also: Edges, scope: set<string>, results: Results, name: string,
      d: Diagnostic)
    requires BlockersAreNear(services, also, scope, results)
    requires IsNear(services, also, name, FindingOwner(services, name, d))
    ensures BlockersAreNear(services, also, scope, AttributeOne(services, results, name, d))
  {
    hide FindingOwner, IsNear;
  }

  lemma NearConcat(services: seq<Service>, also: Edges, n: string, a: seq<Diagnostic>, b: seq<Diagnostic>)
    requires OwnersAreNear(services, also, n, a) && OwnersAreNear(services, also, n, b)
    ensures OwnersAreNear(services, also, n, a + b)
  {
  }

  lemma FailNear(t: Tree, also: Edges, scope: set<string>, st: State, s: Service, warnings: seq<Diagnostic>,
      error: LoadError)
    requires BlockersAreNear(t.services, also, scope, st.results)
    requires OwnersAreNear(t.services, also, s.name, warnings)
    requires OwnersAreNear(t.services, also, s.name, Findings(error, s.dir))
    requires forall d | d in BlockersOf(error) :: IsNear(t.services, also, s.name, d)
    ensures BlockersAreNear(t.services, also, scope, Fail(t, st, s, warnings, error).results)
  {
    hide IsNear, OwnersAreNear, BlockersOf, Findings;
    var r := ResultOf(st.results, s.name);
    var failed := r.(failed := true, blockedBy := r.blockedBy + BlockersOf(error));
    NearConcat(t.services, also, s.name, warnings, Findings(error, s.dir));
    AttributeNear(t.services, also, scope, st.results[s.name := failed], s.name, warnings + Findings(error, s.dir));
  }

  lemma RecordNear(t: Tree, also: Edges, scope: set<string>, st: State, s: Service, reading: Reading)
    requires t.Valid() && FindingsAreNear(t, also) && s in t.services && s.name in scope
    requires BlockersAreNear(t.services, also, scope, st.results)
    requires reading.Stopped? ==> reading.name in s.edges
    ensures BlockersAreNear(t.services, also, scope, Record(t, st, s, reading).results)
  {
    hide BlockersAreNear, IsNear, Fail, Attribute, OwnersAreNear;
    if reading.Stopped? {
      StoppedNear(t, also, scope, st, s, reading);
    } else {
      var outcome := t.loads[s.name].finish(reading.schemas);
      var warnings := AnchoredAll(s.dir, outcome.warnings, Warning);
      assert OutcomeIsNear(t.services, also, s, outcome);
      match outcome.verdict
      case Refused(error) => FailNear(t, also, scope, st, s, warnings, error);
      case Loaded(_, extra, _) =>
        NearConcat(t.services, also, s.name, warnings, AnchoredAll(s.dir, extra, Error));
        AttributeNear(t.services, also, scope, st.results, s.name, warnings + AnchoredAll(s.dir, extra, Error));
    }
  }

  lemma StoppedNear(t: Tree, also: Edges, scope: set<string>, st: State, s: Service, reading: Reading)
    requires t.Valid() && s in t.services && reading.Stopped? && reading.name in s.edges
    requires BlockersAreNear(t.services, also, scope, st.results)
    ensures BlockersAreNear(t.services, also, scope, Record(t, st, s, reading).results)
  {
    hide BlockersAreNear, Fail;
    var error := Wrapped("reading " + reading.name, ErrorOf(reading));
    if ErrorOf(reading).Plain? {
      assert Findings(error, s.dir) == [PlainFinding("reading " + reading.name)];
    }
    ConfigsCount(t.services, also, s, reading.name);
    FailNear(t, also, scope, st, s, [], error);
  }

  /** Every step of a run leaves the scope's blockers near. */
  lemma {:induction false} CheckNear(t: Tree, also: Edges, scope: set<string>, st: State, s: Service)
    requires t.Valid() && FindingsAreNear(t, also) && t.ReadsAreEdges() && ClosedUnderReads(t, scope)
    requires s in t.services && s.name in scope && BlockersAreNear(t.services, also, scope, st.results)
    ensures BlockersAreNear(t.services, also, scope, Check(t, st, s).results)
    decreases Unstarted(t, st), 0
  {
    hide BlockersAreNear, FindingsAreNear, Record;
    if s.name !in st.done && s.name !in st.loading {
      var entered := Enter(st, s.name);
      var asks := t.loads[s.name].asks;
      assert s.name in Unstarted(t, st) && s.name !in Unstarted(t, entered);
      assert Unstarted(t, entered) < Unstarted(t, st);
      EnterNear(t, also, scope, st, s);
      ReadAllNear(t, also, scope, entered, asks, []);
      var (reading, st1) := ReadAll(t, entered, asks, []);
      CheckUnfolds(t, st, s, reading, st1);
      RecordNear(t, also, scope, st1, s, reading);
    }
  }

  lemma EnterNear(t: Tree, also: Edges, scope: set<string>, st: State, s: Service)
    requires BlockersAreNear(t.services, also, scope, st.results)
    ensures BlockersAreNear(t.services, also, scope, Enter(st, s.name).results)
  {
    hide IsNear;
  }

  lemma {:induction false} ReadAllNear(t: Tree, also: Edges, scope: set<string>, st: State, asks: seq<string>,
      got: seq<Schema>)
    requires t.Valid() && FindingsAreNear(t, also) && t.ReadsAreEdges() && ClosedUnderReads(t, scope)
    requires BlockersAreNear(t.services, also, scope, st.results)
    requires forall d | d in asks && d in t.Names() :: d in scope
    ensures var (reading, st') := ReadAll(t, st, asks, got);
      BlockersAreNear(t.services, also, scope, st'.results) && (reading.Stopped? ==> reading.name in asks)
    decreases Unstarted(t, st), 2, |asks|
  {
    hide BlockersAreNear, FindingsAreNear;
    if asks != [] {
      DependencyNear(t, also, scope, st, asks[0]);
      var (answer, st1) := Dependency(t, st, asks[0]);
      assert Unstarted(t, st1) <= Unstarted(t, st);
      if answer.Ready? {
        ReadAllNear(t, also, scope, st1, asks[1..], got + [answer.schema]);
      }
    }
  }

  lemma {:induction false} DependencyNear(t: Tree, also: Edges, scope: set<string>, st: State, name: string)
    requires t.Valid() && FindingsAreNear(t, also) && t.ReadsAreEdges() && ClosedUnderReads(t, scope)
    requires BlockersAreNear(t.services, also, scope, st.results) && (name in t.Names() ==> name in scope)
    ensures BlockersAreNear(t.services, also, scope, Dependency(t, st, name).1.results)
    decreases Unstarted(t, st), 1
  {
    hide BlockersAreNear, FindingsAreNear;
    if IsFresh(t, st, name) {
      CheckNear(t, also, scope, st, ServiceNamed(t, name));
    }
  }

  lemma {:induction false} CheckAllNear(t: Tree, also: Edges, scope: set<string>, st: State, services: seq<Service>)
    requires t.Valid() && FindingsAreNear(t, also) && t.ReadsAreEdges() && ClosedUnderReads(t, scope)
    requires InScope(services, scope) && forall s | s in services :: s in t.services
    requires BlockersAreNear(t.services, also, scope, st.results)
    ensures BlockersAreNear(t.services, also, scope, CheckAll(t, st, services).results)
    decreases |services|
  {
    hide BlockersAreNear, FindingsAreNear, ClosedUnderReads;
    if services != [] {
      CheckNear(t, also, scope, st, services[0]);
      CheckAllNear(t, also, scope, Check(t, st, services[0]), services[1..]);
    }
  }

  // Blame outlives a run

  /** Every failure of a scope is blamed along a path that ends at an error, each step near the one before. */
  ghost predicate Accounted(services: seq<Service>, also: Edges, scope: set<string>, results: Results) {
    && BlockersAreNear(services, also, scope, results)
    && forall n | n in scope && n in results && results[n].failed :: Blamed(results, {}, n)
  }

  /** No service of a scope that is not checked again depends on one that is. */
  ghost predicate KeptApart(t: Tree, also: Edges, scope: set<string>, toCheck: seq<Service>) {
    forall n, d | n in scope && n !in NamesOf(toCheck) && DependsOn(t.services, also, n, d) :: d !in NamesOf(toCheck)
  }

  /** A scope that holds the services its members depend on. */
  ghost predicate ClosedUnder(t: Tree, also: Edges, scope: set<string>) {
    && scope <= t.Names()
    && forall n, d | n in scope && DependsOn(t.services, also, n, d) && d in t.Names() :: d in scope
  }

  lemma ClosedUnderReadsToo(t: Tree, also: Edges, scope: set<string>)
    requires t.Valid() && t.ReadsAreEdges() && ClosedUnder(t, also, scope)
    ensures ClosedUnderReads(t, scope)
  {
    forall s, d | s in t.services && s.name in scope && d in s.edges && d in t.Names() ensures d in scope {
      ConfigsCount(t.services, also, s, d);
    }
    EdgesCloseReads(t, scope);
  }

  lemma ConfigsCount(services: seq<Service>, also: Edges, s: Service, d: string)
    requires s in services && d in s.edges
    ensures DependsOn(services, also, s.name, d)
  {
    assert d in EdgesOf(s, also);
  }

  /** A path of blame stays in a set of services that holds what its members depend on. */
  lemma PathStays(t: Tree, also: Edges, within: set<string>, results: Results, kept: set<string>, path: seq<string>)
    requires BlamePath(results, kept, path) && path[0] in within && results.Keys <= t.Names()
    requires BlockersAreNear(t.services, also, within, results)
    requires forall n, d | n in within && DependsOn(t.services, also, n, d) && d in t.Names() :: d in within
    ensures forall i | 0 <= i < |path| :: path[i] in within
  {
    for i := 1 to |path|
      invariant forall j | 0 <= j < i :: path[j] in within
    {
      assert path[i] in results[path[i - 1]].blockedBy && path[i] != path[i - 1];
      assert IsNear(t.services, also, path[i - 1], path[i]);
    }
  }

  lemma PathsJoin(results: Results, kept: set<string>, p: seq<string>, q: seq<string>)
    requires BlamePath(results, kept, p) && BlamePath(results, {}, q) && p[|p| - 1] == q[0]
    ensures Blamed(results, {}, p[0])
  {
    var path := p + q[1..];
    assert forall i | 0 <= i < |p| :: path[i] == p[i];
    assert forall i | |p| <= i < |path| :: path[i] == q[i - |p| + 1];
    assert path[|path| - 1] == q[|q| - 1];
    assert BlamePath(results, {}, path);
  }

  /** A failure kept from before has the path of blame it had. */
  lemma OldBlameStays(t: Tree, also: Edges, scope: set<string>, results: Results, toCheck: seq<Service>, start: Results,
      after: Results, n: string)
    requires ClosedUnder(t, also, scope) && KeptApart(t, also, scope, toCheck) && results.Keys <= t.Names()
    requires Accounted(t.services, also, scope - NamesOf(toCheck), results)
    requires n in scope && n !in NamesOf(toCheck) && n in results && results[n].failed
    requires start == KeptResults(results, t.Names(), toCheck) && Grown(start, after)
    ensures exists q :: BlamePath(after, {}, q) && q[0] == n
  {
    var q :| BlamePath(results, {}, q) && q[0] == n;
    PathStays(t, also, scope - NamesOf(toCheck), results, {}, q);
    forall i | 0 <= i < |q| ensures q[i] in start && start[q[i]] == results[q[i]] {}
    assert BlamePath(start, {}, q);
    assert Blamed(start, {}, n);
    BlamedGrows(start, after, {}, n);
  }

  lemma StartNear(t: Tree, also: Edges, scope: set<string>, results: Results, toCheck: seq<Service>)
    requires BlockersAreNear(t.services, also, scope - NamesOf(toCheck), results)
    ensures BlockersAreNear(t.services, also, scope, KeptResults(results, t.Names(), toCheck))
  {
    hide IsNear;
  }

  /** After a run every failure of the scope is blamed along a path that ends at an error, when those kept
      from before were and none of them depends on a service checked again. */
  lemma RunAccounts(t: Tree, also: Edges, scope: set<string>, schemas: Schemas, results: Results, toCheck: seq<Service>)
    requires t.Valid() && t.RefusalsAreExplained() && t.ReadsAreEdges() && FindingsAreNear(t, also)
    requires ClosedUnder(t, also, scope) && InScope(toCheck, scope) && forall s | s in toCheck :: s in t.services
    requires Consistent(schemas, results, NamesOf(toCheck)) && results.Keys <= t.Names()
    requires forall n | n in scope && n !in NamesOf(toCheck) :: SettledAt(t, schemas, results, n)
    requires KeptApart(t, also, scope, toCheck) && Accounted(t.services, also, scope - NamesOf(toCheck), results)
    ensures Accounted(t.services, also, scope, Run(schemas, results, t, toCheck).results)
  {
    hide Run, Start, Loads, FindingsAreNear, SettledAt, Accounted, ClosedUnder, KeptApart;
    ClosedUnderReadsToo(t, also, scope);
    var start, st := Start(schemas, results, t, toCheck), Run(schemas, results, t, toCheck);
    RunFacts(t, also, scope, schemas, results, toCheck);
    forall n | n in scope && HasFailed(st, n) ensures Blamed(st.results, {}, n) {
      NewBlame(t, also, scope, results, toCheck, st, n);
    }
    AccountedHolds(t.services, also, scope, st);
  }

  lemma AccountedHolds(services: seq<Service>, also: Edges, scope: set<string>, st: State)
    requires BlockersAreNear(services, also, scope, st.results)
    requires forall n | n in scope && HasFailed(st, n) :: Blamed(st.results, {}, n)
    ensures Accounted(services, also, scope, st.results)
  {
    forall n | n in scope && n in st.results && st.results[n].failed ensures Blamed(st.results, {}, n) {
      assert HasFailed(st, n);
    }
  }

  lemma RunFacts(t: Tree, also: Edges, scope: set<string>, schemas: Schemas, results: Results, toCheck: seq<Service>)
    requires t.Valid() && t.RefusalsAreExplained() && t.ReadsAreEdges() && FindingsAreNear(t, also)
    requires ClosedUnderReads(t, scope) && InScope(toCheck, scope) && forall s | s in toCheck :: s in t.services
    requires Consistent(schemas, results, NamesOf(toCheck))
    requires forall n | n in scope && n !in NamesOf(toCheck) :: SettledAt(t, schemas, results, n)
    requires Accounted(t.services, also, scope - NamesOf(toCheck), results)
    ensures var st := Run(schemas, results, t, toCheck);
      && BlockersAreNear(t.services, also, scope, st.results) && st.results.Keys <= t.Names()
      && Grown(KeptResults(results, t.Names(), toCheck), st.results)
      && forall n | HasFailed(st, n) :: Blamed(st.results, KeptFailures(t, results, toCheck), n)
  {
    hide Loads, FindingsAreNear, SettledAt, ClosedUnderReads, BlockersAreNear, Blamed, Grown, CheckAll;
    var t' := Overlaid(t, scope, schemas);
    OverlaidHolds(t, scope, schemas);
    TruthInOverlaid(t, scope, schemas, results, toCheck);
    LoadsAreAFixedPoint(t');
    RunKeeps(t', Loads(t'), schemas, results, toCheck);
    RunStays(t, t', scope, schemas, results, toCheck);
    StartNear(t, also, scope, results, toCheck);
    CheckAllNear(t, also, scope, Start(schemas, results, t, toCheck), toCheck);
  }

  lemma NewBlame(t: Tree, also: Edges, scope: set<string>, results: Results, toCheck: seq<Service>, st: State,
      n: string)
    requires ClosedUnder(t, also, scope) && KeptApart(t, also, scope, toCheck) && results.Keys <= t.Names()
    requires Accounted(t.services, also, scope - NamesOf(toCheck), results)
    requires BlockersAreNear(t.services, also, scope, st.results) && st.results.Keys <= t.Names()
    requires Grown(KeptResults(results, t.Names(), toCheck), st.results)
    requires n in scope && Blamed(st.results, KeptFailures(t, results, toCheck), n)
    ensures Blamed(st.results, {}, n)
  {
    hide Accounted, KeptApart, Grown, BlockersAreNear;
    var kept := KeptFailures(t, results, toCheck);
    var p :| BlamePath(st.results, kept, p) && p[0] == n;
    PathStays(t, also, scope, st.results, kept, p);
    var last := p[|p| - 1];
    if st.results[last].HasError() {
      assert BlamePath(st.results, {}, p);
    } else {
      OldBlameStays(t, also, scope, results, toCheck, KeptResults(results, t.Names(), toCheck), st.results, last);
      var q :| BlamePath(st.results, {}, q) && q[0] == last;
      PathsJoin(st.results, kept, p, q);
    }
  }

  // Reports

  /** Where a scope is right and its failures are accounted for, a report of it is OK only when every
      service of it loads. */
  lemma OkMeansScopeLoaded(t: Tree, also: Edges, scope: seq<Service>, schemas: Schemas, results: Results,
      general: seq<Diagnostic>, checked: seq<string>, report: Report)
    requires SettledOn(t, NamesOf(scope), schemas, results) && ClosedUnder(t, also, NamesOf(scope))
    requires Accounted(t.services, also, NamesOf(scope), results)
    requires Reports(report, general, results, checked, scope) && report.ok
    ensures forall n | n in NamesOf(scope) :: n in Loads(t)
  {
    hide Loads, Reports, ClosedUnder;
    OkMeansNoErrors(report, general, results, checked, scope);
    forall n | n in NamesOf(scope) ensures n in Loads(t) {
      assert SettledAt(t, schemas, results, n);
      if results[n].failed {
        FailureShows(t, also, scope, results, n);
      }
    }
  }

  /** Where failures are accounted for, one in a scope means an error in it. */
  lemma FailureShows(t: Tree, also: Edges, scope: seq<Service>, results: Results, n: string)
    requires ClosedUnder(t, also, NamesOf(scope)) && results.Keys <= t.Names()
    requires Accounted(t.services, also, NamesOf(scope), results)
    requires n in NamesOf(scope) && n in results && results[n].failed
    ensures exists s :: s in scope && ResultOf(results, s.name).HasError()
  {
    var p :| BlamePath(results, {}, p) && p[0] == n;
    ScopePathStays(t, also, NamesOf(scope), results, p);
    var s :| s in scope && s.name == p[|p| - 1];
    assert ResultOf(results, s.name).HasError();
  }

  lemma ScopePathStays(t: Tree, also: Edges, scope: set<string>, results: Results, path: seq<string>)
    requires ClosedUnder(t, also, scope) && results.Keys <= t.Names()
    requires BlockersAreNear(t.services, also, scope, results)
    requires BlamePath(results, {}, path) && path[0] in scope
    ensures forall i | 0 <= i < |path| :: path[i] in scope
  {
    PathStays(t, also, scope, results, {}, path);
  }
}
