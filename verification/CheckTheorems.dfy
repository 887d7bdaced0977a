/** What a whole run of checks computes. */
module CheckTheorems {
  import opened CheckTypes
  import opened LeastLoads
  import opened CheckRun
  import opened CheckProofs
  import opened CheckScope
  import opened CheckReport
  import opened BuildPlan

  lemma {:induction false} CheckAllKeeps(t: Tree, kept: set<string>, bound: Schemas, st: State, services: seq<Service>)
    requires t.Valid() && t.RefusalsAreExplained() && Closed(t, bound)
    requires forall s | s in services ::
      s in t.services && s.name !in kept && (s.name in st.done || s.name !in st.schemas)
    requires Inv(t, kept, bound, st)
    ensures Inv(t, kept, bound, CheckAll(t, st, services)) && Extends(t, st, CheckAll(t, st, services))
    decreases |services|
  {
    hide Inv, Grown, Closed, Below, Check, Tree.RefusalsAreExplained;
    KeptIsReflexive(t, kept, bound, st);
    if services != [] {
      var st1 := Check(t, st, services[0]);
      CheckKeeps(t, kept, bound, st, services[0]);
      CheckAllKeeps(t, kept, bound, st1, services[1..]);
      ExtendsIsTransitive(t, st, st1, CheckAll(t, st, services));
    }
  }

  /** When a run ends, every service it checked and that loads has a schema: the services that load,
      less those it found without one, are closed under loading. */
  lemma SettledIsRight(t: Tree, kept: set<string>, bound: Schemas, st: State)
    requires t.Valid() && Inv(t, kept, bound, st) && st.loading == {}
    requires Round(t, bound) == bound && forall n | n in kept :: n !in bound
    requires forall m | Closed(t, m) :: Below(bound, m)
    ensures forall n | n in st.done && n in bound :: n in st.schemas
  {
    var found := map n | n in bound && (n in st.done ==> n in st.schemas) :: bound[n];
    RoundIsMonotone(t, found, bound);
    forall n | n in Round(t, found)
      ensures n in found
    {
      if n in st.done && n !in st.schemas {
        SettledFailure(t, kept, bound, st, n, found);
      }
    }
    assert Closed(t, found);
  }

  lemma SettledFailure(t: Tree, kept: set<string>, bound: Schemas, st: State, n: string, before: Schemas)
    requires t.Valid() && Inv(t, kept, bound, st) && st.loading == {}
    requires Round(t, bound) == bound && forall n | n in kept :: n !in bound
    requires Below(before, bound) && forall d | d in st.done && d in before :: d in st.schemas
    requires n in st.done && n !in st.schemas
    ensures n !in Round(t, before)
  {
    assert Resolved(t, kept, st, n);
    var load := t.loads[n];
    if d :| d in load.asks && Lost(t, kept, st, d) {
      assert d in bound ==> d in Round(t, bound);
      assert d !in before;
    } else {
      if n in Round(t, before) {
        RoundIsMonotone(t, before, bound);
        AtBelow(load.asks, st.schemas, bound);
        assert false;
      }
    }
  }

  // What a run leaves

  /** Schemas are kept of services with results, and not of those that failed, but for some names. */
  ghost predicate Consistent(schemas: Schemas, results: Results, but: set<string>) {
    schemas.Keys <= results.Keys && forall n | n in results && n !in but && results[n].failed :: n !in schemas
  }

  /** What is recorded of one service is right: its schema when it loads, and its failure when it does not. */
  ghost predicate SettledAt(t: Tree, schemas: Schemas, results: Results, n: string) {
    && n in results
    && (results[n].failed <==> n !in schemas)
    && (n in schemas <==> n in Loads(t)) && (n in schemas ==> schemas[n] == Loads(t)[n])
  }

  /** What the checker keeps between runs is right for every service of a scope. */
  ghost predicate SettledOn(t: Tree, scope: set<string>, schemas: Schemas, results: Results) {
    && Consistent(schemas, results, {}) && results.Keys <= t.Names()
    && forall n | n in scope :: SettledAt(t, schemas, results, n)
  }

  /** It is right for the whole tree: the schemas are those of the services that load, and the failures
      are exactly the others. */
  ghost predicate Settled(t: Tree, schemas: Schemas, results: Results) {
    && schemas == Loads(t)
    && results.Keys == t.Names()
    && (forall n | n in results :: results[n].failed <==> n !in schemas)
  }

  lemma SettledWhole(t: Tree, schemas: Schemas, results: Results)
    ensures SettledOn(t, t.Names(), schemas, results) <==> Settled(t, schemas, results)
  {
    hide Loads;
    LoadsAreServices(t);
    if SettledOn(t, t.Names(), schemas, results) {
      assert schemas.Keys == Loads(t).Keys;
      assert schemas == Loads(t);
    }
  }

  /** What the last run left of the services not to check is true of what should load, as far as it says:
      `bound` is what should. */
  ghost predicate KeepsTruth(t: Tree, bound: Schemas, schemas: Schemas, results: Results, names: set<string>) {
    && Consistent(schemas, results, names)
    && forall n | n in t.Names() && n !in names ::
         && (n in results && results[n].failed ==> n !in bound)
         && (n in schemas ==> n in bound && schemas[n] == bound[n])
  }

  ghost function KeptFailures(t: Tree, results: Results, toCheck: seq<Service>): set<string> {
    set n | n in t.Names() && n !in NamesOf(toCheck) && n in results && results[n].failed
  }

  lemma RunKeeps(t: Tree, bound: Schemas, schemas: Schemas, results: Results, toCheck: seq<Service>)
    requires t.Valid() && t.RefusalsAreExplained() && forall s | s in toCheck :: s in t.services
    requires KeepsTruth(t, bound, schemas, results, NamesOf(toCheck)) && Round(t, bound) == bound
    ensures var start, st := Start(schemas, results, t, toCheck), Run(schemas, results, t, toCheck);
      Inv(t, KeptFailures(t, results, toCheck), bound, st) && Extends(t, start, st)
  {
    var start := Start(schemas, results, t, toCheck);
    StartHolds(t, bound, schemas, results, toCheck);
    CheckAllKeeps(t, KeptFailures(t, results, toCheck), bound, start, toCheck);
  }

  lemma StartHolds(t: Tree, bound: Schemas, schemas: Schemas, results: Results, toCheck: seq<Service>)
    requires t.Valid() && forall s | s in toCheck :: s in t.services
    requires KeepsTruth(t, bound, schemas, results, NamesOf(toCheck))
    ensures var start := Start(schemas, results, t, toCheck);
      && start.schemas.Keys <= t.Names() - NamesOf(toCheck) && start.done == {} && start.loading == {}
      && Inv(t, KeptFailures(t, results, toCheck), bound, start)
  {
    hide Start, KeepsTruth, Books, CheckedOnce, KeptFailures;
    var start, kept := Start(schemas, results, t, toCheck), KeptFailures(t, results, toCheck);
    StartBooks(t, bound, schemas, results, toCheck);
    forall n | HasFailed(start, n) ensures Blamed(start.results, kept, n) {
      assert BlamePath(start.results, kept, [n]);
    }
  }

  lemma StartBooks(t: Tree, bound: Schemas, schemas: Schemas, results: Results, toCheck: seq<Service>)
    requires t.Valid() && forall s | s in toCheck :: s in t.services
    requires KeepsTruth(t, bound, schemas, results, NamesOf(toCheck))
    ensures var start, kept := Start(schemas, results, t, toCheck), KeptFailures(t, results, toCheck);
      && start.schemas.Keys <= t.Names() - NamesOf(toCheck)
      && Below(start.schemas, bound) && Books(t, kept, start) && CheckedOnce(start)
      && start.done == {} && start.loading == {}
      && forall n | HasFailed(start, n) :: n in kept
  {
    hide Tree.Valid;
    assert NamesOf(toCheck) <= t.Names() by { ServicesAreNamed(t, toCheck); }
  }

  lemma ServicesAreNamed(t: Tree, services: seq<Service>)
    requires t.Valid() && forall s | s in services :: s in t.services
    ensures NamesOf(services) <= t.Names()
  {
  }

  /** What a run adds to what it kept: of the services to check, exactly those that should load have a
      schema and the others failed; and of the rest, nothing known changes. */
  ghost predicate Settles(
    t: Tree, bound: Schemas, schemas: Schemas, results: Results, toCheck: seq<Service>, st: State)
  {
    && st.loading == {} && CheckedOnce(st) && NamesOf(toCheck) <= st.done
    && Consistent(st.schemas, st.results, {}) && st.results.Keys <= t.Names() && Below(st.schemas, bound)
    && (forall n | n in NamesOf(toCheck) ::
          n in st.results && (n in st.schemas <==> n in bound) && (st.results[n].failed <==> n !in st.schemas))
    && (forall n | n in t.Names() && n !in NamesOf(toCheck) && n in schemas ::
          n in st.schemas && n !in st.done && n in st.results && !st.results[n].failed)
    && (forall n | n in KeptFailures(t, results, toCheck) ::
          n !in st.schemas && n !in st.done && n in st.results && st.results[n].failed)
  }

  lemma RunSettlesBound(t: Tree, bound: Schemas, schemas: Schemas, results: Results, toCheck: seq<Service>)
    requires t.Valid() && t.RefusalsAreExplained()
    requires forall s | s in toCheck :: s in t.services
    requires KeepsTruth(t, bound, schemas, results, NamesOf(toCheck))
    requires Round(t, bound) == bound && forall m | Closed(t, m) :: Below(bound, m)
    ensures Settles(t, bound, schemas, results, toCheck, Run(schemas, results, t, toCheck))
  {
    hide Inv, Start, Closed, KeptFailures, KeepsTruth, Settles;
    RunKeeps(t, bound, schemas, results, toCheck);
    var st := Run(schemas, results, t, toCheck);
    NoKeptLoads(t, bound, schemas, results, toCheck);
    EndsIdle(t, schemas, results, toCheck);
    SettledIsRight(t, KeptFailures(t, results, toCheck), bound, st);
    SettlesHolds(t, bound, schemas, results, toCheck, st);
  }

  lemma NoKeptLoads(t: Tree, bound: Schemas, schemas: Schemas, results: Results, toCheck: seq<Service>)
    requires KeepsTruth(t, bound, schemas, results, NamesOf(toCheck))
    ensures forall n | n in KeptFailures(t, results, toCheck) :: n !in bound
  {
  }

  lemma EndsIdle(t: Tree, schemas: Schemas, results: Results, toCheck: seq<Service>)
    requires t.Valid() && forall s | s in toCheck :: s in t.services
    ensures var st := Run(schemas, results, t, toCheck); st.loading == {} && NamesOf(toCheck) <= st.done
  {
  }

  lemma SettlesHolds(t: Tree, bound: Schemas, schemas: Schemas, results: Results, toCheck: seq<Service>, st: State)
    requires t.Valid() && forall s | s in toCheck :: s in t.services
    requires KeepsTruth(t, bound, schemas, results, NamesOf(toCheck))
    requires Inv(t, KeptFailures(t, results, toCheck), bound, st)
    requires Extends(t, Start(schemas, results, t, toCheck), st)
    requires st.loading == {} && NamesOf(toCheck) <= st.done
    requires forall n | n in st.done && n in bound :: n in st.schemas
    ensures Settles(t, bound, schemas, results, toCheck, st)
  {
    hide Resolved, Waits, Blamed, CheckedOnce, Start, Extends, KeepsTruth, KeptFailures, NamesOf;
    var kept := KeptFailures(t, results, toCheck);
    EndsConsistent(t, bound, schemas, results, toCheck, st);
    forall n | n in t.Names() && n !in NamesOf(toCheck) && n in schemas
      ensures n in st.schemas && n !in st.done && n in st.results && !st.results[n].failed
    {
      KeptSchemaStays(t, bound, schemas, results, toCheck, st, n);
    }
    forall n | n in kept ensures n !in st.schemas && n !in st.done && n in st.results && st.results[n].failed {
      assert HasFailed(st, n);
    }
  }

  lemma EndsConsistent(t: Tree, bound: Schemas, schemas: Schemas, results: Results, toCheck: seq<Service>, st: State)
    requires KeepsTruth(t, bound, schemas, results, NamesOf(toCheck))
    requires Books(t, KeptFailures(t, results, toCheck), st) && Extends(t, Start(schemas, results, t, toCheck), st)
    ensures Consistent(st.schemas, st.results, {})
  {
    hide NamesOf, KeptFailures;
    var start := Start(schemas, results, t, toCheck);
    assert start.schemas.Keys <= start.results.Keys;
    forall n | n in st.schemas ensures n in st.results {
      if n in start.schemas {
        assert n in start.results;
      }
    }
    forall n | n in st.results && st.results[n].failed ensures n !in st.schemas {
      assert HasFailed(st, n);
    }
  }

  lemma KeptSchemaStays(t: Tree, bound: Schemas, schemas: Schemas, results: Results, toCheck: seq<Service>, st: State,
      n: string)
    requires KeepsTruth(t, bound, schemas, results, NamesOf(toCheck))
    requires Books(t, KeptFailures(t, results, toCheck), st) && Extends(t, Start(schemas, results, t, toCheck), st)
    requires n in t.Names() && n !in NamesOf(toCheck) && n in schemas
    ensures n in st.schemas && n !in st.done && n in st.results && !st.results[n].failed
  {
    hide NamesOf;
    var start := Start(schemas, results, t, toCheck);
    assert n in start.schemas && n in start.results;
    assert n !in KeptFailures(t, results, toCheck);
    assert HasFailed(st, n) ==> n in st.done;
  }

  /** A run that checks some services of a scope, when the others of the scope are right, makes the scope
      right. It loads each of those services once, and no other. The scope is any whose loads read
      nothing outside it: the whole tree, or what one service depends on. */
  lemma RunSettles(t: Tree, scope: set<string>, schemas: Schemas, results: Results, toCheck: seq<Service>)
    requires t.Valid() && t.RefusalsAreExplained() && ClosedUnderReads(t, scope)
    requires InScope(toCheck, scope) && forall s | s in toCheck :: s in t.services
    requires Consistent(schemas, results, NamesOf(toCheck))
    requires forall n | n in scope && n !in NamesOf(toCheck) :: SettledAt(t, schemas, results, n)
    ensures var st := Run(schemas, results, t, toCheck);
      && SettledOn(t, scope, st.schemas, st.results)
      && Distinct(st.checked) && (forall n :: n in st.checked <==> n in NamesOf(toCheck))
  {
    hide Run, Loads, Settles;
    var t' := Overlaid(t, scope, schemas);
    OverlaidHolds(t, scope, schemas);
    TruthInOverlaid(t, scope, schemas, results, toCheck);
    LoadsAreTheLeast(t');
    RunSettlesBound(t', Loads(t'), schemas, results, toCheck);
    RunStays(t, t', scope, schemas, results, toCheck);
    ScopeSettles(t, scope, schemas, results, toCheck, Run(schemas, results, t, toCheck));
  }

  lemma RunStays(t: Tree, t': Tree, scope: set<string>, schemas: Schemas, results: Results, toCheck: seq<Service>)
    requires t.Valid() && t'.Valid() && ClosedUnderReads(t, scope) && AgreeOn(t, t', scope)
    requires InScope(toCheck, scope) && forall s | s in toCheck :: s in t.services
    ensures Run(schemas, results, t, toCheck) == Run(schemas, results, t', toCheck)
    ensures Run(schemas, results, t, toCheck).done <= scope
  {
    CheckAllStays(t, t', scope, Start(schemas, results, t, toCheck), toCheck);
  }

  lemma TruthInOverlaid(t: Tree, scope: set<string>, schemas: Schemas, results: Results, toCheck: seq<Service>)
    requires t.Valid() && ClosedUnderReads(t, scope) && InScope(toCheck, scope)
    requires Consistent(schemas, results, NamesOf(toCheck))
    requires forall n | n in scope && n !in NamesOf(toCheck) :: SettledAt(t, schemas, results, n)
    ensures var t' := Overlaid(t, scope, schemas); KeepsTruth(t', Loads(t'), schemas, results, NamesOf(toCheck))
  {
    hide Loads, ClosedUnderReads;
    forall n | n in t.Names() && n !in NamesOf(toCheck)
      ensures var loads' := Loads(Overlaid(t, scope, schemas));
        && (n in results && results[n].failed ==> n !in loads')
        && (n in schemas ==> n in loads' && schemas[n] == loads'[n])
    {
      OverlaidLoads(t, scope, schemas, n);
    }
  }

  lemma ScopeSettles(t: Tree, scope: set<string>, schemas: Schemas, results: Results, toCheck: seq<Service>, st: State)
    requires t.Valid() && ClosedUnderReads(t, scope) && InScope(toCheck, scope) && st.done <= scope
    requires forall n | n in scope && n !in NamesOf(toCheck) :: SettledAt(t, schemas, results, n)
    requires var t' := Overlaid(t, scope, schemas); Settles(t', Loads(t'), schemas, results, toCheck, st)
    ensures SettledOn(t, scope, st.schemas, st.results)
    ensures Distinct(st.checked) && forall n :: n in st.checked <==> n in NamesOf(toCheck)
  {
    hide Loads;
    forall n | n in scope
      ensures SettledAt(t, st.schemas, st.results, n)
      ensures n !in NamesOf(toCheck) ==> n !in st.done
    {
      OverlaidLoads(t, scope, schemas, n);
      if n !in NamesOf(toCheck) {
        assert SettledAt(t, schemas, results, n);
        assert n in schemas || n in KeptFailures(Overlaid(t, scope, schemas), results, toCheck);
      }
    }
  }

  /** No load reads a stale schema: whatever the dependency loader answers of a scope, at any point of a run
      of it, is the schema the tree gives the service, whatever is still held of services outside. */
  lemma ReadsAreRight(t: Tree, scope: set<string>, schemas: Schemas, kept: set<string>, st: State, name: string)
    requires t.Valid() && t.RefusalsAreExplained() && ClosedUnderReads(t, scope)
    requires name in t.Names() ==> name in scope
    requires var t' := Overlaid(t, scope, schemas); Inv(t', kept, Loads(t'), st)
    ensures var t', (answer, st') := Overlaid(t, scope, schemas), Dependency(t, st, name);
      Inv(t', kept, Loads(t'), st') && (answer.Ready? ==> name in Loads(t) && answer.schema == Loads(t)[name])
  {
    hide Books, CheckedOnce, Resolved, Waits, Blamed, Extends, NoneWaits, Dependency, Loads;
    var t' := Overlaid(t, scope, schemas);
    OverlaidHolds(t, scope, schemas);
    LoadsAreAFixedPoint(t');
    LoadsAreServices(t');
    DependencyStays(t, t', scope, st, name);
    DependencyKeeps(t', kept, Loads(t'), st, name);
    if name in t.Names() {
      OverlaidLoads(t, scope, schemas, name);
    }
  }

  /** And every point of a run of a scope is such a point: where it begins, and after any of its checks. */
  lemma RunsKeepReadsRight(t: Tree, scope: set<string>, schemas: Schemas, results: Results, toCheck: seq<Service>,
      some: seq<Service>)
    requires t.Valid() && t.RefusalsAreExplained() && ClosedUnderReads(t, scope)
    requires InScope(toCheck, scope) && forall s | s in toCheck :: s in t.services
    requires Consistent(schemas, results, NamesOf(toCheck)) && forall s | s in some :: s in toCheck
    requires forall n | n in scope && n !in NamesOf(toCheck) :: SettledAt(t, schemas, results, n)
    ensures var t', st := Overlaid(t, scope, schemas), CheckAll(t, Start(schemas, results, t, toCheck), some);
      Inv(t', KeptFailures(t, results, toCheck), Loads(t'), st)
  {
    hide Inv, Start, Loads, SettledAt, ClosedUnderReads, KeptFailures;
    var t' := Overlaid(t, scope, schemas);
    var kept := KeptFailures(t, results, toCheck);
    OverlaidHolds(t, scope, schemas);
    TruthInOverlaid(t, scope, schemas, results, toCheck);
    LoadsAreAFixedPoint(t');
    SameNamesStartAlike(t, t', schemas, results, toCheck);
    StartHolds(t', Loads(t'), schemas, results, toCheck);
    CheckAllStays(t, t', scope, Start(schemas, results, t, toCheck), some);
    assert forall s | s in toCheck :: s.name in NamesOf(toCheck);
    CheckAllKeeps(t', kept, Loads(t'), Start(schemas, results, t, toCheck), some);
  }

  lemma SameNamesStartAlike(t: Tree, t': Tree, schemas: Schemas, results: Results, toCheck: seq<Service>)
    requires t.Names() == t'.Names()
    ensures Start(schemas, results, t, toCheck) == Start(schemas, results, t', toCheck)
    ensures KeptFailures(t, results, toCheck) == KeptFailures(t', results, toCheck)
    ensures KeptFailures(t, results, toCheck) !! NamesOf(toCheck)
  {
  }

  // Full runs

  /** A run of every service, in whatever order discovery lists them and whatever an earlier run left,
      finds exactly the services that load, loads each service once, and blames every failure. */
  lemma FullRun(t: Tree, schemas: Schemas, results: Results, order: seq<Service>)
    requires t.Valid() && t.RefusalsAreExplained()
    requires forall s | s in order :: s in t.services
    requires NamesOf(order) == t.Names() && schemas.Keys <= results.Keys
    ensures var st := Run(schemas, results, t, order);
      && Settled(t, st.schemas, st.results)
      && Distinct(st.checked) && (forall n :: n in st.checked <==> n in t.Names())
      && (forall n | n in st.results && st.results[n].failed :: Blamed(st.results, {}, n))
  {
    hide Run, Loads, SettledOn, Settled, Blamed;
    FullRunSettles(t, schemas, results, order);
    var st := Run(schemas, results, t, order);
    SettledWhole(t, st.schemas, st.results);
    FullRunBlames(t, schemas, results, order);
  }

  lemma FullRunSettles(t: Tree, schemas: Schemas, results: Results, order: seq<Service>)
    requires t.Valid() && t.RefusalsAreExplained()
    requires forall s | s in order :: s in t.services
    requires NamesOf(order) == t.Names() && schemas.Keys <= results.Keys
    ensures var st := Run(schemas, results, t, order);
      && SettledOn(t, t.Names(), st.schemas, st.results)
      && Distinct(st.checked) && (forall n :: n in st.checked <==> n in t.Names())
  {
    hide Run, Loads, SettledOn, SettledAt;
    var known, names := KnownResults(results, t.Names()), t.Names();
    RunSettles(t, t.Names(), KnownSchemas(schemas, results.Keys, names), known, order);
    RunForgets(t, schemas, results, order);
  }

  lemma RunForgets(t: Tree, schemas: Schemas, results: Results, order: seq<Service>)
    requires t.Valid() && forall s | s in order :: s in t.services
    ensures Run(schemas, results, t, order)
      == Run(KnownSchemas(schemas, results.Keys, t.Names()), KnownResults(results, t.Names()), t, order)
  {
    var s1 := KnownSchemas(schemas, results.Keys, t.Names());
    var r1 := KnownResults(results, t.Names());
    assert KnownSchemas(s1, r1.Keys, t.Names()) == s1 && KnownResults(r1, t.Names()) == r1;
  }

  lemma FullRunBlames(t: Tree, schemas: Schemas, results: Results, order: seq<Service>)
    requires t.Valid() && t.RefusalsAreExplained()
    requires forall s | s in order :: s in t.services
    requires NamesOf(order) == t.Names() && schemas.Keys <= results.Keys
    ensures var st := Run(schemas, results, t, order);
      forall n | n in st.results && st.results[n].failed :: Blamed(st.results, {}, n)
  {
    hide Run, Loads;
    LoadsAreAFixedPoint(t);
    var known := KnownResults(results, t.Names());
    RunForgets(t, schemas, results, order);
    RunKeeps(t, Loads(t), KnownSchemas(schemas, results.Keys, t.Names()), known, order);
    assert KeptFailures(t, known, order) == {};
    var st := Run(schemas, results, t, order);
    assert forall n | n in st.results && st.results[n].failed :: HasFailed(st, n);
  }

  /** So the schemas a full run finds are the least set closed under loading. */
  lemma FullRunFindsTheLeast(t: Tree, schemas: Schemas, results: Results, order: seq<Service>)
    requires t.Valid() && t.RefusalsAreExplained()
    requires forall s | s in order :: s in t.services
    requires NamesOf(order) == t.Names() && schemas.Keys <= results.Keys
    ensures IsLeast(t, Run(schemas, results, t, order).schemas)
  {
    hide Run, IsLeast, Loads, Blamed;
    FullRun(t, schemas, results, order);
    LoadsAreTheLeast(t);
  }

  /** And neither the order of discovery nor what was kept before makes a difference to them. */
  lemma FullRunsAgree(
    t: Tree, schemas: Schemas, results: Results, order: seq<Service>,
    schemas': Schemas, results': Results, order': seq<Service>)
    requires t.Valid() && t.RefusalsAreExplained()
    requires (forall s | s in order :: s in t.services) && forall s | s in order' :: s in t.services
    requires NamesOf(order) == t.Names() && schemas.Keys <= results.Keys
    requires NamesOf(order') == t.Names() && schemas'.Keys <= results'.Keys
    ensures Run(schemas, results, t, order).schemas == Run(schemas', results', t, order').schemas
  {
    hide Run, Loads, Blamed;
    FullRun(t, schemas, results, order);
    FullRun(t, schemas', results', order');
  }

  /** Every service on or above a cycle of reads fails. */
  lemma FullRunFailsCycles(t: Tree, schemas: Schemas, results: Results, order: seq<Service>, circular: set<string>)
    requires t.Valid() && t.RefusalsAreExplained()
    requires forall s | s in order :: s in t.services
    requires NamesOf(order) == t.Names() && schemas.Keys <= results.Keys
    requires circular <= t.Names()
    requires forall n | n in circular :: exists d :: d in t.loads[n].asks && d in circular
    ensures var st := Run(schemas, results, t, order);
      forall n | n in circular :: n in st.results && st.results[n].failed && n !in st.schemas
  {
    hide Run, Loads, Blamed;
    FullRun(t, schemas, results, order);
    CyclesNeverLoad(t, circular);
  }

  /** Blame ends at an error: where no service has one, none is blamed. */
  lemma NoErrorNoBlame(results: Results, n: string)
    requires forall m | m in results :: !results[m].HasError()
    ensures !Blamed(results, {}, n)
  {
  }

  /** A service reported blocked names at least one service, each another one. */
  lemma BlockedNamesAnother(results: Results, name: string)
    requires name in results && results[name].failed && Blamed(results, {}, name)
    requires StatusOf(results, name).BlockedBy?
    ensures StatusOf(results, name).names != []
    ensures forall n | n in StatusOf(results, name).names :: n != name && n in results[name].blockedBy
  {
    var path :| BlamePath(results, {}, path) && path[0] == name;
    ErrorsCount(results[name].diagnostics);
    assert |path| > 1;
    assert path[1] in StatusOf(results, name).names;
  }

  /** A full report without errors means every service loaded. */
  lemma OkMeansLoaded(t: Tree, schemas: Schemas, results: Results, order: seq<Service>, general: seq<Diagnostic>,
      report: Report)
    requires t.Valid() && t.RefusalsAreExplained()
    requires forall s | s in order :: s in t.services
    requires NamesOf(order) == t.Names() && schemas.Keys <= results.Keys
    requires var st := Run(schemas, results, t, order);
      Reports(report, general, st.results, st.checked, order)
    requires report.ok
    ensures forall n | n in t.Names() :: n in Loads(t)
  {
    hide Run, Loads, Reports;
    FullRun(t, schemas, results, order);
    var st := Run(schemas, results, t, order);
    OkMeansNoErrors(report, general, st.results, st.checked, order);
    forall n | n in st.results ensures n in st.schemas {
      forall m | m in st.results ensures !st.results[m].HasError() {
        assert m in NamesOf(order);
      }
      NoErrorNoBlame(st.results, n);
    }
  }

  // Incremental runs

  /** What the configs of a scope's services name is in it, when it is a service of the tree. */
  ghost predicate ClosedUnderEdges(t: Tree, scope: set<string>) {
    && scope <= t.Names()
    && forall s, d | s in t.services && s.name in scope && d in s.edges && d in t.Names() :: d in scope
  }

  /** A run of the services of a scope that an edit affects leaves what a run of them all would: the edit
      changes the loads of those services only, and a load reads only services its config names. */
  lemma IncrementalRun(before: Tree, t: Tree, scope: set<string>, schemas: Schemas, results: Results,
      changed: seq<string>, also: Edges)
    requires before.Valid() && t.Valid() && t.RefusalsAreExplained() && t.ReadsAreEdges()
    requires before.services == t.services && ClosedUnderEdges(t, scope)
    requires forall n | n in scope && !Affected(t.services, also, changed, n) :: t.loads[n] == before.loads[n]
    requires SettledOn(before, scope, schemas, results)
    ensures var affected := AffectedNames(t.services, also, changed);
      var st := Run(schemas, results, t, Named(t.services, affected * scope));
      && SettledOn(t, scope, st.schemas, st.results)
      && Distinct(st.checked)
      && (forall n :: n in st.checked <==> n in scope && n in affected)
  {
    hide Run, Loads, SettledAt;
    var affected := AffectedNames(t.services, also, changed);
    var toCheck := Named(t.services, affected * scope);
    EdgesCloseReads(t, scope);
    NamesOfNamed(t.services, affected * scope);
    forall n | n in scope && n !in affected ensures SettledAt(t, schemas, results, n) {
      UnaffectedStays(before, t, scope, schemas, results, changed, also, n);
    }
    RunSettles(t, scope, schemas, results, toCheck);
  }

  lemma EdgesCloseReads(t: Tree, scope: set<string>)
    requires t.Valid() && t.ReadsAreEdges() && ClosedUnderEdges(t, scope)
    ensures ClosedUnderReads(t, scope)
  {
    forall n, d | n in scope && d in t.loads[n].asks && d in t.Names() ensures d in scope {
      var s :| s in t.services && s.name == n;
    }
  }

  lemma NamesOfNamed(services: seq<Service>, names: set<string>)
    requires names <= NamesOf(services)
    ensures NamesOf(Named(services, names)) == names
  {
  }

  lemma UnaffectedStays(before: Tree, t: Tree, scope: set<string>, schemas: Schemas, results: Results,
      changed: seq<string>, also: Edges, n: string)
    requires before.Valid() && t.Valid() && t.ReadsAreEdges() && before.services == t.services
    requires ClosedUnderEdges(t, scope) && n in scope
    requires forall n | n in scope && !Affected(t.services, also, changed, n) :: t.loads[n] == before.loads[n]
    requires SettledAt(before, schemas, results, n) && !Affected(t.services, also, changed, n)
    ensures SettledAt(t, schemas, results, n)
  {
    hide Loads, Affected, DependsOn;
    var affected := AffectedNames(t.services, also, changed);
    var edited := affected + (t.Names() - scope);
    EdgesCloseReads(t, scope);
    assert before.Names() == t.Names();
    forall m, d | m in t.loads && m !in edited && d in t.loads[m].asks ensures d !in edited {
      AskIsUnaffected(t, also, changed, m, d);
    }
    AgreementOutside(before, t, edited);
  }

  lemma AskIsUnaffected(t: Tree, also: Edges, changed: seq<string>, m: string, d: string)
    requires t.Valid() && t.ReadsAreEdges() && m in t.loads && d in t.loads[m].asks
    requires !Affected(t.services, also, changed, m)
    ensures !Affected(t.services, also, changed, d)
  {
    var s :| s in t.services && s.name == m;
    assert d in EdgesOf(s, also);
    assert DependsOn(t.services, also, m, d);
    if Affected(t.services, also, changed, d) {
      AffectedStep(t.services, also, changed, d, m);
    }
  }
}
