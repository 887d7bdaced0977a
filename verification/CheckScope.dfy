/** What a run of some services leaves alone: the loads of services that none of them reads. */
module CheckScope {
  import opened CheckTypes
  import opened LeastLoads
  import opened CheckRun
  import opened CheckProofs

  /** Services whose loads ask for no other service of the tree. */
  ghost predicate ClosedUnderReads(t: Tree, scope: set<string>) {
    scope <= t.Names() && forall n, d | n in scope && d in t.loads[n].asks && d in t.Names() :: d in scope
  }

  /** Two trees of the same services that differ only in loads outside a scope. */
  ghost predicate AgreeOn(t: Tree, t': Tree, scope: set<string>) {
    && t.services == t'.services && t.Names() == t'.Names()
    && forall n | n in scope && n in t.loads :: t.loads[n] == t'.loads[n]
  }

  ghost predicate InScope(services: seq<Service>, scope: set<string>) {
    forall s | s in services :: s.name in scope
  }

  /** Checking a service of the scope is the same in both, and starts no load outside it. */
  lemma {:induction false} CheckStays(t: Tree, t': Tree, scope: set<string>, st: State, s: Service)
    requires t.Valid() && t'.Valid() && ClosedUnderReads(t, scope) && AgreeOn(t, t', scope)
    requires s in t.services && s.name in scope
    ensures Check(t, st, s) == Check(t', st, s) && Check(t, st, s).done <= st.done + scope
    decreases Unstarted(t, st), 0
  {
    hide Record;
    if s.name !in st.done && s.name !in st.loading {
      var entered := Enter(st, s.name);
      var asks := t.loads[s.name].asks;
      assert s.name in Unstarted(t, st) && s.name !in Unstarted(t, entered);
      assert Unstarted(t, entered) < Unstarted(t, st);
      ReadAllStays(t, t', scope, entered, asks, []);
      var (reading, st1) := ReadAll(t, entered, asks, []);
      CheckUnfolds(t, st, s, reading, st1);
      CheckUnfolds(t', st, s, reading, st1);
      RecordStays(t, t', st1, s, reading);
    }
  }

  lemma RecordStays(t: Tree, t': Tree, st: State, s: Service, reading: Reading)
    requires t.Valid() && t'.Valid() && t.services == t'.services && s in t.services
    requires t.loads[s.name] == t'.loads[s.name]
    ensures Record(t, st, s, reading) == Record(t', st, s, reading)
  {
  }

  lemma {:induction false} ReadAllStays(t: Tree, t': Tree, scope: set<string>, st: State, asks: seq<string>,
      got: seq<Schema>)
    requires t.Valid() && t'.Valid() && ClosedUnderReads(t, scope) && AgreeOn(t, t', scope)
    requires forall d | d in asks && d in t.Names() :: d in scope
    ensures ReadAll(t, st, asks, got) == ReadAll(t', st, asks, got)
    ensures ReadAll(t, st, asks, got).1.done <= st.done + scope
    decreases Unstarted(t, st), 2, |asks|
  {
    if asks != [] {
      DependencyStays(t, t', scope, st, asks[0]);
      var (answer, st1) := Dependency(t, st, asks[0]);
      assert Unstarted(t, st1) <= Unstarted(t, st);
      if answer.Ready? {
        ReadAllStays(t, t', scope, st1, asks[1..], got + [answer.schema]);
      }
    }
  }

  lemma {:induction false} DependencyStays(t: Tree, t': Tree, scope: set<string>, st: State, name: string)
    requires t.Valid() && t'.Valid() && ClosedUnderReads(t, scope) && AgreeOn(t, t', scope)
    requires name in t.Names() ==> name in scope
    ensures Dependency(t, st, name) == Dependency(t', st, name)
    ensures Dependency(t, st, name).1.done <= st.done + scope
    decreases Unstarted(t, st), 1
  {
    if IsFresh(t, st, name) {
      CheckStays(t, t', scope, st, ServiceNamed(t, name));
    }
  }

  lemma {:induction false} CheckAllStays(t: Tree, t': Tree, scope: set<string>, st: State, services: seq<Service>)
    requires t.Valid() && t'.Valid() && ClosedUnderReads(t, scope) && AgreeOn(t, t', scope)
    requires InScope(services, scope) && forall s | s in services :: s in t.services
    ensures CheckAll(t, st, services) == CheckAll(t', st, services)
    ensures CheckAll(t, st, services).done <= st.done + scope
    decreases |services|
  {
    if services != [] {
      CheckStays(t, t', scope, st, services[0]);
      CheckAllStays(t, t', scope, Check(t, st, services[0]), services[1..]);
    }
  }

  /** A load that asks for nothing: it gives the schema it is known to have, or fails. */
  function Standing(schemas: Schemas, n: string): Load {
    Load([], [], (_: seq<Schema>) =>
      Outcome([], if n in schemas then Loaded(schemas[n], [], false) else Refused(Plain("out of scope"))))
  }

  /** A tree whose loads outside a scope stand as the last runs left them. */
  function Overlaid(t: Tree, scope: set<string>, schemas: Schemas): Tree {
    Tree(t.services, map n | n in t.loads :: if n in scope then t.loads[n] else Standing(schemas, n))
  }

  lemma OverlaidHolds(t: Tree, scope: set<string>, schemas: Schemas)
    requires t.Valid() && t.RefusalsAreExplained()
    ensures var t' := Overlaid(t, scope, schemas);
      t'.Valid() && t'.RefusalsAreExplained() && AgreeOn(t, t', scope)
  {
    var t' := Overlaid(t, scope, schemas);
    assert t'.Names() == t.Names();
  }

  /** What loads in the overlaid tree: in the scope, what loads in the tree; outside it, what is known to. */
  lemma OverlaidLoads(t: Tree, scope: set<string>, schemas: Schemas, n: string)
    requires t.Valid() && ClosedUnderReads(t, scope) && n in t.Names()
    ensures var loads, loads' := Loads(t), Loads(Overlaid(t, scope, schemas));
      if n in scope then (n in loads' <==> n in loads) && (n in loads ==> loads'[n] == loads[n])
      else (n in loads' <==> n in schemas) && (n in schemas ==> loads'[n] == schemas[n])
  {
    hide Loads;
    var t' := Overlaid(t, scope, schemas);
    AgreementOutside(t, t', t.Names() - scope);
    LoadsAreAFixedPoint(t');
    LoadsAreServices(t);
    LoadsAreServices(t');
    if n !in scope {
      assert AllIn(t'.loads[n].asks, Loads(t'));
      assert n in Loads(t') <==> n in Round(t', Loads(t'));
    }
  }

  // Services not checked

  /** Something is known of a service, its schema or its failure, and it is not being loaded. */
  ghost predicate IsKnown(st: State, n: string, loaded: bool) {
    n !in st.loading && (n in st.schemas <==> loaded) && (loaded || HasFailed(st, n))
  }

  /** Checking another service leaves it known as it was. */
  lemma {:induction false} CheckLeaves(t: Tree, st: State, s: Service, n: string, loaded: bool)
    requires t.Valid() && s in t.services && s.name != n && IsKnown(st, n, loaded)
    ensures IsKnown(Check(t, st, s), n, loaded)
    decreases Unstarted(t, st), 0
  {
    hide Record;
    if s.name !in st.done && s.name !in st.loading {
      var entered := Enter(st, s.name);
      var asks := t.loads[s.name].asks;
      assert s.name in Unstarted(t, st) && s.name !in Unstarted(t, entered);
      assert Unstarted(t, entered) < Unstarted(t, st);
      ReadAllLeaves(t, entered, asks, [], n, loaded);
      var (reading, st1) := ReadAll(t, entered, asks, []);
      CheckUnfolds(t, st, s, reading, st1);
      RecordLeaves(t, st1, s, reading, n, loaded);
    }
  }

  lemma RecordLeaves(t: Tree, st: State, s: Service, reading: Reading, n: string, loaded: bool)
    requires t.Valid() && s in t.services && s.name != n && s.name in st.results && IsKnown(st, n, loaded)
    ensures IsKnown(Record(t, st, s, reading), n, loaded)
  {
    hide Attribute, Grown, Findings, BlockersOf, Explained;
    if reading.Stopped? {
      FailGrows(t, st, s, [], Wrapped("reading " + reading.name, ErrorOf(reading)));
    } else {
      var outcome := t.loads[s.name].finish(reading.schemas);
      var warnings := AnchoredAll(s.dir, outcome.warnings, Warning);
      match outcome.verdict
      case Refused(error) => FailGrows(t, st, s, warnings, error);
      case Loaded(_, extra, _) =>
        AttributeGrows(t.services, st.results, s.name, warnings + AnchoredAll(s.dir, extra, Error));
    }
  }

  lemma {:induction false} ReadAllLeaves(t: Tree, st: State, asks: seq<string>, got: seq<Schema>, n: string,
      loaded: bool)
    requires t.Valid() && IsKnown(st, n, loaded)
    ensures IsKnown(ReadAll(t, st, asks, got).1, n, loaded)
    decreases Unstarted(t, st), 2, |asks|
  {
    hide IsKnown;
    if asks != [] {
      DependencyLeaves(t, st, asks[0], n, loaded);
      var (answer, st1) := Dependency(t, st, asks[0]);
      assert Unstarted(t, st1) <= Unstarted(t, st);
      if answer.Ready? {
        ReadAllLeaves(t, st1, asks[1..], got + [answer.schema], n, loaded);
      }
    }
  }

  lemma {:induction false} DependencyLeaves(t: Tree, st: State, name: string, n: string, loaded: bool)
    requires t.Valid() && IsKnown(st, n, loaded)
    ensures IsKnown(Dependency(t, st, name).1, n, loaded)
    decreases Unstarted(t, st), 1
  {
    if IsFresh(t, st, name) {
      CheckLeaves(t, st, ServiceNamed(t, name), n, loaded);
    }
  }

  /** So does a run that does not check it, whatever its own load would now do. */
  lemma {:induction false} CheckAllLeaves(t: Tree, st: State, services: seq<Service>, n: string, loaded: bool)
    requires t.Valid() && (forall s | s in services :: s in t.services && s.name != n) && IsKnown(st, n, loaded)
    ensures IsKnown(CheckAll(t, st, services), n, loaded)
    decreases |services|
  {
    hide IsKnown;
    if services != [] {
      CheckLeaves(t, st, services[0], n, loaded);
      CheckAllLeaves(t, Check(t, st, services[0]), services[1..], n, loaded);
    }
  }
}
