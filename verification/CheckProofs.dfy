/** What every step of a run keeps, and what a whole run computes. */
module CheckProofs {
  import opened CheckTypes
  import opened LeastLoads
  import opened CheckRun

  /** A service that will have no schema when the run ends. `kept` are the services that failed in an
      earlier run and are not checked again. */
  ghost predicate Lost(t: Tree, kept: set<string>, st: State, d: string) {
    d !in st.schemas && (d in st.done || d in kept || !IsService(t, d))
  }

  /** Why a service failed, in terms that do not change: it asks for a lost service, or refuses the
      schemas it reads. */
  ghost predicate Resolved(t: Tree, kept: set<string>, st: State, n: string) {
    && n in t.loads
    && ((exists d :: d in t.loads[n].asks && Lost(t, kept, st, d)) || LoadRefuses(t.loads[n], st.schemas))
  }

  predicate LoadRefuses(load: Load, m: Schemas) {
    AllIn(load.asks, m) && VerdictAt(load, m).Refused?
  }

  /** Or it asks for a service that is still loading, which then waits for it. */
  ghost predicate Waits(t: Tree, st: State, n: string) {
    n in t.loads && exists d :: d in t.loads[n].asks && d in st.loading && d !in st.schemas
  }

  /** A path along `blockedBy` from a service to one with an error of its own, or to a kept failure. */
  ghost predicate BlamePath(results: Results, kept: set<string>, path: seq<string>) {
    && path != []
    && (forall i | 0 <= i < |path| :: path[i] in results)
    && (forall i | 0 <= i < |path| - 1 :: path[i + 1] != path[i] && path[i + 1] in results[path[i]].blockedBy)
    && (results[path[|path| - 1]].HasError() || path[|path| - 1] in kept)
  }

  ghost predicate Blamed(results: Results, kept: set<string>, n: string) {
    exists path :: BlamePath(results, kept, path) && path[0] == n
  }

  ghost predicate Distinct(names: seq<string>) {
    forall i, j | 0 <= i < j < |names| :: names[i] != names[j]
  }

  /** Every service started is listed once. */
  ghost predicate CheckedOnce(st: State) {
    Distinct(st.checked) && forall n :: n in st.checked <==> n in st.loading || n in st.done
  }

  ghost predicate Books(t: Tree, kept: set<string>, st: State) {
    && st.loading !! st.done
    && kept !! st.loading + st.done
    && st.loading + st.done <= t.Names()
    && st.results.Keys <= t.Names()
    && (forall n | n in st.loading :: n !in st.schemas && n in st.results && !HasFailed(st, n))
    && (forall n | n in st.done :: n in st.results && (n in st.schemas <==> !HasFailed(st, n)))
    && (forall n | HasFailed(st, n) :: n in st.done || n in kept)
    && (forall n | n in kept :: HasFailed(st, n) && n !in st.schemas)
  }

  /** What every step of a run keeps. `bound` is any set of schemas closed under loading. */
  ghost predicate Inv(t: Tree, kept: set<string>, bound: Schemas, st: State) {
    && Books(t, kept, st)
    && CheckedOnce(st)
    && Below(st.schemas, bound)
    && (forall n | n in st.done && n !in st.schemas :: Resolved(t, kept, st, n) || Waits(t, st, n))
    && (forall n | HasFailed(st, n) :: Blamed(st.results, kept, n))
  }

  /** No service checked since st waits for one that was loading then. */
  ghost predicate NoneWaits(t: Tree, kept: set<string>, st: State, st': State) {
    forall n | n in st'.done - st.done && n !in st'.schemas :: Resolved(t, kept, st', n)
  }

  lemma GrownIsTransitive(a: Results, b: Results, c: Results)
    requires Grown(a, b) && Grown(b, c)
    ensures Grown(a, c)
  {
  }

  lemma GrownHolds(r: Results, r': Results)
    requires Grown(r, r')
    ensures r.Keys <= r'.Keys
  {
  }

  lemma BlamedGrows(r: Results, r': Results, kept: set<string>, n: string)
    requires Blamed(r, kept, n) && Grown(r, r')
    ensures Blamed(r', kept, n)
  {
  }

  lemma BlameStep(r: Results, kept: set<string>, n: string, next: string)
    requires n in r && next in r[n].blockedBy && next != n && Blamed(r, kept, next)
    ensures Blamed(r, kept, n)
  {
    var path :| BlamePath(r, kept, path) && path[0] == next;
    assert BlamePath(r, kept, [n] + path);
  }

  lemma ResolvedGrows(t: Tree, kept: set<string>, st: State, st': State, n: string)
    requires Resolved(t, kept, st, n) && Extends(t, st, st')
    requires Books(t, kept, st) && Books(t, kept, st')
    ensures Resolved(t, kept, st', n)
  {
    var load := t.loads[n];
    if d :| d in load.asks && Lost(t, kept, st, d) {
      assert Lost(t, kept, st', d);
    } else {
      RefusalStays(load, st.schemas, st'.schemas);
    }
  }

  lemma RefusalStays(load: Load, m: Schemas, m': Schemas)
    requires LoadRefuses(load, m) && Below(m, m')
    ensures LoadRefuses(load, m')
  {
    AtBelow(load.asks, m, m');
  }

  // Attribution

  lemma AddGrows(r: Result, d: Diagnostic)
    ensures var r' := r.Add(d);
      && r' == r.(diagnostics := r'.diagnostics)
      && (r.HasError() ==> r'.HasError())
      && (d.severity == Error ==> r'.HasError())
  {
  }

  lemma AttributeOneGrows(services: seq<Service>, results: Results, name: string, d: Diagnostic)
    requires name in results
    ensures var results' := AttributeOne(services, results, name, d);
      && Grown(results, results')
      && (forall n | n in results' :: results'[n].failed == (n in results && results[n].failed))
      && results'.Keys <= results.Keys + NamesOf(services)
      && (d.severity == Error ==> Explained(results', name))
  {
    var owner := FindingOwner(services, name, d);
    var r := ResultOf(results, name);
    var results1 := if owner == name then results else results[name := r.(blockedBy := r.blockedBy + {owner})];
    AddGrows(ResultOf(results1, owner), d.(service := owner));
  }

  /** A failed service's result says why: an error of its own, or a service that has one and blocks it. */
  ghost predicate Explained(results: Results, name: string) {
    && name in results
    && (|| results[name].HasError()
        || exists o :: o in results[name].blockedBy && o != name && o in results && results[o].HasError())
  }

  lemma {:induction false} AttributeGrows(services: seq<Service>, results: Results, name: string,
      findings: seq<Diagnostic>)
    requires name in results
    ensures var results' := Attribute(services, results, name, findings);
      && Grown(results, results')
      && (forall n | n in results' :: results'[n].failed == (n in results && results[n].failed))
      && results'.Keys <= results.Keys + NamesOf(services)
      && ((exists d :: d in findings && d.severity == Error) ==> Explained(results', name))
    decreases |findings|
  {
    if findings != [] {
      var d, rest := findings[0], findings[1..];
      assert findings == [d] + rest;
      var results1 := AttributeOne(services, results, name, d);
      AttributeOneGrows(services, results, name, d);
      AttributeGrows(services, results1, name, rest);
    }
  }

  lemma ExplainedIsBlamed(results: Results, kept: set<string>, name: string)
    requires Explained(results, name)
    ensures Blamed(results, kept, name)
  {
    if results[name].HasError() {
      assert BlamePath(results, kept, [name]);
    } else {
      var o :| o in results[name].blockedBy && o != name && o in results && results[o].HasError();
      assert BlamePath(results, kept, [o]);
      BlameStep(results, kept, name, o);
    }
  }

  // Recording a load

  lemma FailGrows(t: Tree, st: State, s: Service, warnings: seq<Diagnostic>, error: LoadError)
    requires s.name in st.results
    ensures var st' := Fail(t, st, s, warnings, error);
      && st' == st.(results := st'.results)
      && Grown(st.results, st'.results)
      && st'.results.Keys <= st.results.Keys + NamesOf(t.services)
      && (forall n :: HasFailed(st', n) <==> n == s.name || HasFailed(st, n))
      && (Findings(error, s.dir) != [] ==> Explained(st'.results, s.name))
      && BlockersOf(error) <= st'.results[s.name].blockedBy
  {
    hide Findings, BlockersOf, Attribute, Explained, NamesOf;
    var r := st.results[s.name];
    var failed := r.(failed := true, blockedBy := r.blockedBy + BlockersOf(error));
    assert r.HasError() ==> failed.HasError();
    var findings := warnings + Findings(error, s.dir);
    AttributeGrows(t.services, st.results[s.name := failed], s.name, findings);
    if Findings(error, s.dir) != [] {
      assert Findings(error, s.dir)[0] in findings;
    }
  }

  /** What reading a load's services found, as the engine's state shows it. */
  ghost predicate ReadingHolds(t: Tree, kept: set<string>, st: State, asks: seq<string>, reading: Reading) {
    match reading
    case Read(schemas) => AllIn(asks, st.schemas) && schemas == At(asks, st.schemas)
    case Stopped(name, answer) =>
      && name in asks && name !in st.schemas && !answer.Ready?
      && (answer.Blocked? ==> HasFailed(st, name))
      && (Lost(t, kept, st, name) || name in st.loading)
  }

  /** What recording the load of s leaves: its schema, or its failure, and nothing else's. */
  ghost predicate Recorded(t: Tree, kept: set<string>, bound: Schemas, st: State, s: Service, reading: Reading,
      st': State)
    requires s.name in t.loads
  {
    && st' == st.(schemas := st'.schemas, results := st'.results, rewrote := st'.rewrote)
    && Grown(st.results, st'.results) && st'.results.Keys <= t.Names()
    && (forall n :: HasFailed(st', n) <==> HasFailed(st, n) || (n == s.name && n !in st'.schemas))
    && (s.name !in st'.schemas ==>
          && st'.schemas == st.schemas && Blamed(st'.results, kept, s.name)
          && (reading.Read? ==> LoadRefuses(t.loads[s.name], st.schemas)))
    && (s.name in st'.schemas ==> reading.Read? && st'.schemas == st.schemas[s.name := st'.schemas[s.name]])
    && Below(st'.schemas, bound)
  }

  lemma RecordKeeps(t: Tree, kept: set<string>, bound: Schemas, st: State, s: Service, reading: Reading)
    requires t.Valid() && t.RefusalsAreExplained() && s in t.services && Closed(t, bound)
    requires s.name in st.loading
    requires Inv(t, kept, bound, st) && ReadingHolds(t, kept, st, t.loads[s.name].asks, reading)
    ensures Recorded(t, kept, bound, st, s, reading, Record(t, st, s, reading))
  {
    if reading.Stopped? {
      RecordStopped(t, kept, bound, st, s, reading);
    } else {
      var load := t.loads[s.name];
      var outcome := load.finish(reading.schemas);
      var warnings := AnchoredAll(s.dir, outcome.warnings, Warning);
      match outcome.verdict
      case Refused(error) =>
        assert t.loads[s.name].finish(reading.schemas).verdict.Refused?;
        FailRecorded(t, kept, bound, st, s, reading, warnings, error);
      case Loaded(_, _, _) =>
        LoadRecorded(t, kept, bound, st, s, reading);
    }
  }

  lemma LoadRecorded(t: Tree, kept: set<string>, bound: Schemas, st: State, s: Service, reading: Reading)
    requires t.Valid() && s in t.services && Closed(t, bound) && s.name in st.results && !HasFailed(st, s.name)
    requires st.results.Keys <= t.Names() && Below(st.schemas, bound)
    requires reading.Read? && AllIn(t.loads[s.name].asks, st.schemas)
    requires reading.schemas == At(t.loads[s.name].asks, st.schemas)
    requires t.loads[s.name].finish(reading.schemas).verdict.Loaded?
    ensures Recorded(t, kept, bound, st, s, reading, Record(t, st, s, reading))
  {
    hide Attribute, Grown, Closed;
    var load := t.loads[s.name];
    var outcome := load.finish(reading.schemas);
    var findings := AnchoredAll(s.dir, outcome.warnings, Warning) + AnchoredAll(s.dir, outcome.verdict.extra, Error);
    AttributeGrows(t.services, st.results, s.name, findings);
    AtBelow(load.asks, st.schemas, bound);
    ClosedHolds(t, bound, s.name);
  }

  lemma FailRecorded(t: Tree, kept: set<string>, bound: Schemas, st: State, s: Service, reading: Reading,
      warnings: seq<Diagnostic>, error: LoadError)
    requires t.Valid() && s in t.services && s.name in st.results && s.name !in st.schemas
    requires st.results.Keys <= t.Names() && Below(st.schemas, bound)
    requires reading.Read? ==> LoadRefuses(t.loads[s.name], st.schemas)
    requires Findings(error, s.dir) != []
      || exists d :: d in BlockersOf(error) && d != s.name && d in st.results && Blamed(st.results, kept, d)
    ensures Recorded(t, kept, bound, st, s, reading, Fail(t, st, s, warnings, error))
  {
    FailGrows(t, st, s, warnings, error);
    var results := Fail(t, st, s, warnings, error).results;
    if Findings(error, s.dir) != [] {
      ExplainedIsBlamed(results, kept, s.name);
    } else {
      var d :| d in BlockersOf(error) && d != s.name && d in st.results && Blamed(st.results, kept, d);
      BlamedGrows(st.results, results, kept, d);
      BlameStep(results, kept, s.name, d);
    }
  }

  lemma RecordStopped(t: Tree, kept: set<string>, bound: Schemas, st: State, s: Service, reading: Reading)
    requires t.Valid() && s in t.services && s.name in st.loading && reading.Stopped?
    requires Inv(t, kept, bound, st) && ReadingHolds(t, kept, st, t.loads[s.name].asks, reading)
    ensures Recorded(t, kept, bound, st, s, reading, Record(t, st, s, reading))
  {
    hide Fail, Recorded, Blamed, CheckedOnce, Resolved, Waits, Lost, ErrorOf, Findings, BlockersOf;
    var error := Wrapped("reading " + reading.name, ErrorOf(reading));
    StoppedError(reading, s.dir);
    FailRecorded(t, kept, bound, st, s, reading, [], error);
  }

  lemma StoppedError(reading: Reading, dir: string)
    requires reading.Stopped? && !reading.answer.Ready?
    ensures var error := Wrapped("reading " + reading.name, ErrorOf(reading));
      Findings(error, dir) != [] || (reading.answer.Blocked? && reading.name in BlockersOf(error))
  {
    if !reading.answer.Blocked? {
      var message := "reading " + reading.name;
      assert Findings(Wrapped(message, ErrorOf(reading)), dir) == [PlainFinding(message)];
    }
  }

  // The engine

  lemma {:induction false} CheckKeeps(t: Tree, kept: set<string>, bound: Schemas, st: State, s: Service)
    requires t.Valid() && t.RefusalsAreExplained() && s in t.services && s.name !in kept && Closed(t, bound)
    requires Inv(t, kept, bound, st)
    requires s.name in st.done || s.name !in st.schemas
    ensures Kept(t, kept, bound, st, Check(t, st, s), s.name in Check(t, st, s).schemas)
    decreases Unstarted(t, st), 0
  {
    hide Extends, NoneWaits, Closed;
    KeptIsReflexive(t, kept, bound, st);
    if s.name !in st.done && s.name !in st.loading {
      var entered := Enter(st, s.name);
      EnterKeeps(t, kept, bound, st, s);
      var asks := t.loads[s.name].asks;
      var (reading, st1) := ReadAll(t, entered, asks, []);
      assert s.name in Unstarted(t, st) && s.name !in Unstarted(t, entered);
      assert Unstarted(t, entered) < Unstarted(t, st);
      ReadAllKeeps(t, kept, bound, entered, asks, []);
      CheckUnfolds(t, st, s, reading, st1);
      RecordKeeps(t, kept, bound, st1, s, reading);
      LeaveKeeps(t, kept, bound, st, s, reading, st1, Record(t, st1, s, reading));
    }
  }

  /** A step keeps the invariant and forgets nothing; when it ends well, nothing it checked waits for
      what was loading before it. */
  ghost predicate Kept(t: Tree, kept: set<string>, bound: Schemas, st: State, st': State, well: bool) {
    Inv(t, kept, bound, st') && Extends(t, st, st') && (well ==> NoneWaits(t, kept, st, st'))
  }

  lemma KeptIsReflexive(t: Tree, kept: set<string>, bound: Schemas, st: State)
    requires Inv(t, kept, bound, st)
    ensures Kept(t, kept, bound, st, st, true)
  {
  }

  lemma EnterKeeps(t: Tree, kept: set<string>, bound: Schemas, st: State, s: Service)
    requires t.Valid() && s in t.services && s.name !in kept && s.name !in st.done + st.loading
    requires Inv(t, kept, bound, st) && s.name !in st.schemas
    ensures Inv(t, kept, bound, Enter(st, s.name))
    ensures Grown(st.results, Enter(st, s.name).results)
  {
    hide Resolved, Waits, Blamed, Books, CheckedOnce;
    EnterBooks(t, kept, st, s);
    var entered := Enter(st, s.name);
    forall n | n in entered.done && n !in entered.schemas
      ensures Resolved(t, kept, entered, n) || Waits(t, entered, n)
    {
      EnterSettles(t, kept, st, s, n);
    }
    forall n | HasFailed(entered, n) ensures Blamed(entered.results, kept, n) {
      BlamedGrows(st.results, entered.results, kept, n);
    }
  }

  lemma EnterBooks(t: Tree, kept: set<string>, st: State, s: Service)
    requires t.Valid() && s in t.services && s.name !in kept && s.name !in st.done + st.loading
    requires Books(t, kept, st) && CheckedOnce(st) && s.name !in st.schemas
    ensures Books(t, kept, Enter(st, s.name)) && CheckedOnce(Enter(st, s.name))
  {
  }

  lemma EnterSettles(t: Tree, kept: set<string>, st: State, s: Service, n: string)
    requires Resolved(t, kept, st, n) || Waits(t, st, n)
    ensures Resolved(t, kept, Enter(st, s.name), n) || Waits(t, Enter(st, s.name), n)
  {
    if Resolved(t, kept, st, n) {
      LostElsewhere(t, kept, st, Enter(st, s.name), n);
    } else {
      assert Waits(t, st, n);
    }
  }

  lemma LostElsewhere(t: Tree, kept: set<string>, st: State, st': State, n: string)
    requires Resolved(t, kept, st, n) && st'.schemas == st.schemas && st.done <= st'.done
    ensures Resolved(t, kept, st', n)
  {
  }

  lemma LeaveKeeps(t: Tree, kept: set<string>, bound: Schemas, st: State, s: Service, reading: Reading, st1: State,
      st2: State)
    requires t.Valid() && s in t.services && s.name !in kept
    requires s.name !in st.done + st.loading && s.name !in st.schemas
    requires Inv(t, kept, bound, st)
    requires Kept(t, kept, bound, Enter(st, s.name), st1, reading.Read?)
    requires ReadingHolds(t, kept, st1, t.loads[s.name].asks, reading)
    requires Recorded(t, kept, bound, st1, s, reading, st2)
    ensures Kept(t, kept, bound, st, Leave(st2, s.name), s.name in st2.schemas)
  {
    hide Grown, Closed, Blamed, CheckedOnce, Resolved, Waits, Books, LoadRefuses, Below;
    var st' := Leave(st2, s.name);
    assert s.name in Enter(st, s.name).loading;
    LoadingIsApart(t, kept, st1, s.name);
    LeaveBooks(t, kept, bound, st1, s, reading, st2);
    LeaveExtends(t, kept, bound, st, s, reading, st1, st2);
    forall n | n in st'.done && n !in st'.schemas
      ensures Resolved(t, kept, st', n) || Waits(t, st', n)
      ensures s.name in st'.schemas && n !in st.done ==> Resolved(t, kept, st', n)
    {
      LeaveSettles(t, kept, bound, st, s, reading, st1, st2, n);
    }
    LeaveBlames(t, kept, bound, st1, s, reading, st2);
    LeaveChecks(t, kept, bound, st1, s, reading, st2);
  }

  lemma LeaveBlames(t: Tree, kept: set<string>, bound: Schemas, st1: State, s: Service, reading: Reading, st2: State)
    requires s.name in t.loads && Recorded(t, kept, bound, st1, s, reading, st2)
    requires forall n | HasFailed(st1, n) :: Blamed(st1.results, kept, n)
    ensures forall n | HasFailed(Leave(st2, s.name), n) :: Blamed(Leave(st2, s.name).results, kept, n)
  {
    hide Grown, Blamed;
    forall n | HasFailed(Leave(st2, s.name), n) ensures Blamed(st2.results, kept, n) {
      if HasFailed(st1, n) {
        BlamedGrows(st1.results, st2.results, kept, n);
      }
    }
  }

  lemma LeaveChecks(t: Tree, kept: set<string>, bound: Schemas, st1: State, s: Service, reading: Reading, st2: State)
    requires s.name in t.loads && Recorded(t, kept, bound, st1, s, reading, st2)
    requires CheckedOnce(st1) && s.name in st1.loading
    ensures CheckedOnce(Leave(st2, s.name))
  {
  }

  lemma LeaveBooks(t: Tree, kept: set<string>, bound: Schemas, st1: State, s: Service, reading: Reading, st2: State)
    requires t.Valid() && s in t.services
    requires s.name in st1.loading && Books(t, kept, st1)
    requires Recorded(t, kept, bound, st1, s, reading, st2)
    ensures Books(t, kept, Leave(st2, s.name))
  {
    hide Grown, Blamed, Below, LoadRefuses, Tree.Valid;
    GrownHolds(st1.results, st2.results);
    LoadingIsApart(t, kept, st1, s.name);
    var st' := Leave(st2, s.name);
    assert st'.loading + st'.done == st1.loading + st1.done;
    forall n | n in st'.done ensures n in st'.results && (n in st'.schemas <==> !HasFailed(st', n)) {
      assert n in st1.results;
    }
  }

  lemma LeaveGrows(t: Tree, kept: set<string>, bound: Schemas, st: State, s: Service, reading: Reading, st1: State,
      st2: State)
    requires s.name in t.loads && Grown(Enter(st, s.name).results, st1.results)
    requires Recorded(t, kept, bound, st1, s, reading, st2)
    ensures Grown(st.results, st2.results)
  {
  }

  lemma LeaveExtends(t: Tree, kept: set<string>, bound: Schemas, st: State, s: Service, reading: Reading, st1: State,
      st2: State)
    requires t.Valid() && s in t.services
    requires s.name !in st.done + st.loading && s.name !in st.schemas
    requires Extends(t, Enter(st, s.name), st1)
    requires s.name in st1.loading && s.name !in st1.done && s.name !in st1.schemas
    requires Recorded(t, kept, bound, st1, s, reading, st2)
    ensures Extends(t, st, Leave(st2, s.name))
  {
    hide Grown, Recorded;
    LeaveGrows(t, kept, bound, st, s, reading, st1, st2);
    RecordedAdds(t, kept, bound, st1, s, reading, st2);
    assert st1.loading - {s.name} == st.loading;
  }

  lemma LeaveSettles(t: Tree, kept: set<string>, bound: Schemas, st: State, s: Service, reading: Reading, st1: State,
      st2: State, n: string)
    requires t.Valid() && s in t.services && s.name !in kept
    requires s.name !in st.done + st.loading && s.name !in st.schemas
    requires Inv(t, kept, bound, st)
    requires Kept(t, kept, bound, Enter(st, s.name), st1, reading.Read?)
    requires ReadingHolds(t, kept, st1, t.loads[s.name].asks, reading)
    requires Recorded(t, kept, bound, st1, s, reading, st2)
    requires n in st2.done + {s.name} && n !in st2.schemas
    ensures var st' := Leave(st2, s.name);
      && (Resolved(t, kept, st', n) || Waits(t, st', n))
      && (s.name in st'.schemas && n !in st.done ==> Resolved(t, kept, st', n))
  {
    hide Books, CheckedOnce, Resolved, Waits, Blamed, NoneWaits, Lost, Grown, Below, LoadRefuses;
    var st' := Leave(st2, s.name);
    assert s.name in Enter(st, s.name).loading;
    if n == s.name {
      LeaveSettlesItself(t, kept, bound, st1, s, reading, st2);
    } else if Resolved(t, kept, st1, n) {
      ResolvedLeaves(t, kept, bound, st1, s, reading, st2, n);
    } else {
      WaitedBefore(t, kept, bound, st, s, reading, st1, n);
      WaitLeaves(t, kept, bound, st1, s, reading, st2, n, n in st.done);
    }
  }

  lemma WaitLeaves(t: Tree, kept: set<string>, bound: Schemas, st1: State, s: Service, reading: Reading, st2: State,
      n: string, other: bool)
    requires t.Valid() && s in t.services
    requires reading.Stopped? || other
    requires n in t.loads
    requires exists d :: d in t.loads[n].asks && d in st1.loading && d !in st1.schemas && (other ==> d != s.name)
    requires Recorded(t, kept, bound, st1, s, reading, st2)
    ensures var st' := Leave(st2, s.name);
      && (Resolved(t, kept, st', n) || Waits(t, st', n))
      && (s.name in st'.schemas ==> other)
  {
  }

  lemma LeaveSettlesItself(t: Tree, kept: set<string>, bound: Schemas, st1: State, s: Service, reading: Reading,
      st2: State)
    requires t.Valid() && s in t.services && s.name in st1.loading && s.name !in st2.schemas
    requires Books(t, kept, st1)
    requires ReadingHolds(t, kept, st1, t.loads[s.name].asks, reading)
    requires Recorded(t, kept, bound, st1, s, reading, st2)
    ensures var st' := Leave(st2, s.name);
      Resolved(t, kept, st', s.name) || Waits(t, st', s.name)
  {
  }

  /** A service that waits was checked in the course of a failed reading, or waited before it. */
  lemma WaitedBefore(t: Tree, kept: set<string>, bound: Schemas, st: State, s: Service, reading: Reading, st1: State,
      n: string)
    requires t.Valid() && s in t.services && s.name !in kept
    requires s.name !in st.done + st.loading && s.name !in st.schemas
    requires Inv(t, kept, bound, st)
    requires Kept(t, kept, bound, Enter(st, s.name), st1, reading.Read?)
    requires n in st1.done && n !in st1.schemas && !Resolved(t, kept, st1, n)
    ensures reading.Stopped? || n in st.done
    ensures n in t.loads
    ensures exists d :: d in t.loads[n].asks && d in st1.loading && d !in st1.schemas && (n in st.done ==> d != s.name)
  {
    var entered := Enter(st, s.name);
    EnterKeeps(t, kept, bound, st, s);
    if n in st.done {
      if Resolved(t, kept, entered, n) {
        ResolvedGrows(t, kept, entered, st1, n);
      }
      if Resolved(t, kept, st, n) {
        LostElsewhere(t, kept, st, entered, n);
      }
      var d :| d in t.loads[n].asks && d in st.loading && d !in st.schemas;
      assert d in st1.loading && d !in st1.schemas && d != s.name;
    } else {
      assert n in st1.done - entered.done;
      var d :| d in t.loads[n].asks && d in st1.loading && d !in st1.schemas;
    }
  }

  lemma ResolvedLeaves(t: Tree, kept: set<string>, bound: Schemas, st1: State, s: Service, reading: Reading,
      st2: State, n: string)
    requires t.Valid() && s in t.services && s.name !in kept && s.name in st1.loading
    requires Books(t, kept, st1) && Resolved(t, kept, st1, n)
    requires Recorded(t, kept, bound, st1, s, reading, st2)
    ensures Resolved(t, kept, Leave(st2, s.name), n)
  {
    hide Grown, Blamed, LoadRefuses, Books, Below, Recorded;
    var st' := Leave(st2, s.name);
    LoadingIsApart(t, kept, st1, s.name);
    RecordedAdds(t, kept, bound, st1, s, reading, st2);
    if d :| d in t.loads[n].asks && Lost(t, kept, st1, d) {
      assert Lost(t, kept, st', d);
    } else {
      RefusalStays(t.loads[n], st1.schemas, st'.schemas);
    }
  }

  lemma LoadingIsApart(t: Tree, kept: set<string>, st: State, n: string)
    requires Books(t, kept, st) && n in st.loading
    ensures n !in st.done && n !in kept && IsService(t, n) && n !in st.schemas && n in st.results
  {
  }

  lemma RecordedAdds(t: Tree, kept: set<string>, bound: Schemas, st1: State, s: Service, reading: Reading, st2: State)
    requires s.name in t.loads && s.name !in st1.schemas && Recorded(t, kept, bound, st1, s, reading, st2)
    ensures Below(st1.schemas, st2.schemas) && st2.schemas.Keys <= st1.schemas.Keys + {s.name}
    ensures st2.loading == st1.loading && st2.done == st1.done
  {
  }

  lemma {:induction false} ReadAllKeeps(t: Tree, kept: set<string>, bound: Schemas, st: State, asks: seq<string>,
      got: seq<Schema>)
    requires t.Valid() && t.RefusalsAreExplained() && Closed(t, bound)
    requires Inv(t, kept, bound, st)
    ensures var (reading, st') := ReadAll(t, st, asks, got);
      Kept(t, kept, bound, st, st', reading.Read?) && ReadAfter(t, kept, st', asks, got, reading)
    decreases Unstarted(t, st), 2, |asks|
  {
    hide Inv, Extends, NoneWaits, Closed;
    if asks == [] {
      assert got + [] == got;
      KeptIsReflexive(t, kept, bound, st);
    } else {
      var (answer, st1) := Dependency(t, st, asks[0]);
      DependencyKeeps(t, kept, bound, st, asks[0]);
      assert Unstarted(t, st1) <= Unstarted(t, st);
      if answer.Ready? {
        ReadAllKeeps(t, kept, bound, st1, asks[1..], got + [answer.schema]);
        var (reading, st') := ReadAll(t, st1, asks[1..], got + [answer.schema]);
        ReadAllNext(t, kept, bound, st, st1, st', asks, got, answer.schema, reading);
        assert ReadAll(t, st, asks, got) == (reading, st');
      } else {
        assert ReadAll(t, st, asks, got) == (Stopped(asks[0], answer), st1);
        ReadStopped(t, kept, st1, asks, Stopped(asks[0], answer));
      }
    }
  }

  lemma ReadStopped(t: Tree, kept: set<string>, st: State, asks: seq<string>, reading: Reading)
    requires asks != [] && reading.Stopped? && ReadingHolds(t, kept, st, [asks[0]], reading)
    ensures ReadingHolds(t, kept, st, asks, reading)
  {
  }

  lemma ReadAllNext(t: Tree, kept: set<string>, bound: Schemas, st: State, st1: State, st2: State,
                    asks: seq<string>, got: seq<Schema>, schema: Schema, reading: Reading)
    requires asks != [] && Inv(t, kept, bound, st)
    requires Kept(t, kept, bound, st, st1, true) && Kept(t, kept, bound, st1, st2, reading.Read?)
    requires asks[0] in st1.schemas && st1.schemas[asks[0]] == schema
    requires ReadAfter(t, kept, st2, asks[1..], got + [schema], reading)
    ensures Kept(t, kept, bound, st, st2, reading.Read?) && ReadAfter(t, kept, st2, asks, got, reading)
  {
    KeptIsTransitive(t, kept, bound, st, st1, st2, reading.Read?);
    assert asks[0] in st2.schemas && st2.schemas[asks[0]] == schema;
    ReadOneMore(t, kept, st2, asks, got, schema, reading);
  }

  ghost predicate ReadAfter(t: Tree, kept: set<string>, st: State, asks: seq<string>, got: seq<Schema>,
      reading: Reading) {
    match reading
    case Read(schemas) => AllIn(asks, st.schemas) && schemas == got + At(asks, st.schemas)
    case Stopped(_, _) => ReadingHolds(t, kept, st, asks, reading)
  }

  lemma ReadOneMore(t: Tree, kept: set<string>, st: State, asks: seq<string>, got: seq<Schema>, schema: Schema,
      reading: Reading)
    requires asks != [] && asks[0] in st.schemas && st.schemas[asks[0]] == schema
    requires ReadAfter(t, kept, st, asks[1..], got + [schema], reading)
    ensures ReadAfter(t, kept, st, asks, got, reading)
  {
  }

  lemma KeptIsTransitive(t: Tree, kept: set<string>, bound: Schemas, st: State, st1: State, st2: State, well: bool)
    requires Inv(t, kept, bound, st) && Kept(t, kept, bound, st, st1, true) && Kept(t, kept, bound, st1, st2, well)
    ensures Kept(t, kept, bound, st, st2, well)
  {
    hide Books, CheckedOnce, Resolved, Waits, Blamed, Extends;
    ExtendsIsTransitive(t, st, st1, st2);
    forall n | well && n in st2.done - st.done && n !in st2.schemas
      ensures Resolved(t, kept, st2, n)
    {
      ResolvedStays(t, kept, st, st1, st2, n);
    }
  }

  lemma ExtendsIsTransitive(t: Tree, st: State, st1: State, st2: State)
    requires Extends(t, st, st1) && Extends(t, st1, st2)
    ensures Extends(t, st, st2)
  {
    hide Grown;
    GrownIsTransitive(st.results, st1.results, st2.results);
  }

  lemma ResolvedStays(t: Tree, kept: set<string>, st: State, st1: State, st2: State, n: string)
    requires Books(t, kept, st1) && Books(t, kept, st2) && Extends(t, st1, st2)
    requires NoneWaits(t, kept, st, st1) && NoneWaits(t, kept, st1, st2)
    requires n in st2.done - st.done && n !in st2.schemas
    ensures Resolved(t, kept, st2, n)
  {
    hide Resolved, Grown, Books;
    if n in st1.done {
      assert n !in st1.schemas;
      ResolvedGrows(t, kept, st1, st2, n);
    }
  }

  lemma {:induction false} DependencyKeeps(t: Tree, kept: set<string>, bound: Schemas, st: State, name: string)
    requires t.Valid() && t.RefusalsAreExplained() && Closed(t, bound)
    requires Inv(t, kept, bound, st)
    ensures var (answer, st') := Dependency(t, st, name);
      && Kept(t, kept, bound, st, st', answer.Ready?)
      && (answer.Ready? ==> name in st'.schemas && answer.schema == st'.schemas[name])
      && (!answer.Ready? ==> ReadingHolds(t, kept, st', [name], Stopped(name, answer)))
    decreases Unstarted(t, st), 1
  {
    if IsFresh(t, st, name) {
      CheckKeeps(t, kept, bound, st, ServiceNamed(t, name));
    }
  }
}
