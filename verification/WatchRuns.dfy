/** Runs one after another: what each leaves is right for the disk it found. */
module WatchRuns {
  import opened CheckTypes
  import opened LeastLoads
  import opened CheckRun
  import opened CheckTheorems
  import opened CheckBlame
  import opened CheckReport
  import opened CheckEngine
  import opened Basics
  import opened BuildPlan

  ghost function TreeOn(disk: Disk): Tree {
    Tree(FoundOn(disk), disk.loads)
  }

  /** The names a checker answers for: of every service, or of the target and what it depends on. */
  ghost function ScopeNames(services: seq<Service>, at: Place): set<string> {
    NamesOf(ReportedScope(services, at))
  }

  /** What each load's decorator arguments name. */
  ghost function NamedOn(disk: Disk): Edges {
    (s: Service) => if s.name in disk.loads then disk.loads[s.name].named else []
  }

  /** What the theorems about runs ask of what is on disk. */
  ghost predicate IsSound(disk: Disk) {
    && disk.Sound()
    && (disk.discovery.Found? ==>
          && TreeOn(disk).RefusalsAreExplained() && TreeOn(disk).ReadsAreEdges() && TreeOn(disk).NamesAreRecorded())
    && (disk.discovery.Undiscovered? ==> Findings(disk.discovery.error, "") != [])
  }

  /** What a checker holds is right for a disk: it holds the services found there, and what it recorded of
      those it answers for is what checking them all would record. */
  ghost predicate UpToDate(m: Memory, at: Place, disk: Disk) {
    && m.services == FoundOn(disk)
    && (m.services == [] ==> m.schemas == map[] && m.results == map[])
    && Consistent(m.schemas, m.results, {})
    && (ScopeOf(m.services, at).Some? ==>
          SettledOn(TreeOn(disk), ScopeNames(m.services, at), m.schemas, m.results))
  }

  /** Where a load's findings may be beside its own files and those of the services its config names: for a
      checker of every service, in those its decorator arguments name. */
  ghost function NearOn(disk: Disk, at: Place): Edges {
    if at.target == "" then NamedOn(disk) else NoReferences()
  }

  /** And each failure it recorded of them is blamed along a path that ends at an error. */
  ghost predicate AccountedFor(m: Memory, at: Place, disk: Disk) {
    Accounted(m.services, NearOn(disk, at), ScopeNames(m.services, at), m.results)
  }

  /** What a run is told of an edit, and the disk after it. */
  datatype Edit = Edit(disk: Disk, changed: Changes)

  /** An edit named service by service keeps the services, and changes only the loads of those named and of
      services that depend on them, by their configs or by what their decorator arguments name. */
  ghost predicate SoundEdit(before: Disk, e: Edit) {
    && IsSound(e.disk)
    && (e.changed.Only? && before.discovery.Found? ==>
          && e.disk.discovery == before.discovery
          && forall n | n in e.disk.loads && !Affected(FoundOn(before), NamedOn(before), e.changed.names, n) ::
               n in before.loads && e.disk.loads[n] == before.loads[n])
  }

  /** Whether a run finds out what such an edit can change. It knows what decorator arguments name only of
      services it holds the schema of: whatever it answers for that depends on a changed service must depend
      on one by what it knows. */
  ghost predicate IsFollowed(m: Memory, at: Place, before: Disk, changed: Changes) {
    changed.Only? ==>
      forall n | n in ScopeNames(m.services, at) && Affected(m.services, NamedOn(before), changed.names, n) ::
        Affected(m.services, ReferencesIn(m.schemas), changed.names, n)
  }

  // One run

  lemma ScopeIsClosed(t: Tree, at: Place)
    requires t.Valid() && ScopeOf(t.services, at).Some?
    ensures ClosedUnderEdges(t, ScopeNames(t.services, at))
    ensures forall s | s in ReportedScope(t.services, at) :: s in t.services
  {
    hide Needed;
    var names := ScopeNames(t.services, at);
    if at.target != "" {
      var root := RootOf(t.services, at.target);
      assert names == NeededNames(t.services, root);
      forall s, d | s in t.services && s.name in names && d in s.edges && d in t.Names() ensures d in names {
        ConfigNames(t, s, d);
        NeededStep(t.services, root, s.name, d);
      }
    }
  }

  lemma ConfigNames(t: Tree, s: Service, d: string)
    requires t.Valid() && s in t.services && d in s.edges
    ensures NamedBy(t.services, s.name, d)
  {
    var s' := WithName(t.services, s.name);
    var i, j :| 0 <= i < |t.services| && 0 <= j < |t.services| && t.services[i] == s && t.services[j] == s';
    assert i == j;
  }

  lemma MoreEdgesAffectMore(services: seq<Service>, less: Edges, more: Edges, changed: seq<string>, n: string)
    requires forall s, d | s in services && d in less(s) :: d in EdgesOf(s, more)
    requires Affected(services, less, changed, n)
    ensures Affected(services, more, changed, n)
  {
    var chain :| Chain(services, less, chain) && chain[0] in changed && chain[|chain| - 1] == n;
    forall i | 0 < i < |chain| ensures DependsOn(services, more, chain[i], chain[i - 1]) {
      MoreEdgesDependMore(services, less, more, chain[i], chain[i - 1]);
    }
    assert Chain(services, more, chain);
  }

  lemma MoreEdgesDependMore(services: seq<Service>, less: Edges, more: Edges, n: string, d: string)
    requires forall s, d | s in services && d in less(s) :: d in EdgesOf(s, more)
    requires DependsOn(services, less, n, d)
    ensures DependsOn(services, more, n, d)
  {
    var s :| s in services && s.name == n && d in EdgesOf(s, less);
    assert d in EdgesOf(s, more);
  }

  /** The memory after one run of a watch. */
  ghost function Watched(m: Memory, at: Place, before: Disk, e: Edit): (end: RunEnd)
    requires m.services == FoundOn(before) && before.Sound() && SoundEdit(before, e)
    ensures end.memory.services == FoundOn(e.disk)
    ensures end.memory.services == [] ==> end.rewrote == []
  {
    assert m.services != [] && e.changed.Only? ==> Tree(m.services, e.disk.loads) == TreeOn(e.disk);
    AfterRun(m, at, e.changed, e.disk)
  }

  /** One run leaves the checker right for the disk it found: what it recorded is what checking everything
      in scope would record. */
  lemma RunStaysUpToDate(m: Memory, at: Place, before: Disk, e: Edit)
    requires before.Sound() && SoundEdit(before, e) && UpToDate(m, at, before) && IsFollowed(m, at, before, e.changed)
    ensures UpToDate(Watched(m, at, before, e).memory, at, e.disk)
  {
    hide CheckRun.Run, SettledOn, ScopeOf, RunOfScope, Consistent, IsSound, IsFollowed, Findings, NoClosure;
    var all := e.changed.Everything? || m.services == [];
    var known := m.(services := FoundOn(e.disk), general := []);
    if known.services == [] {
      NothingIsConsistent();
      NoneInScope(at);
    } else {
      SoundTree(e.disk);
      if ScopeOf(known.services, at).Some? {
        var scope := ScopeOf(known.services, at).value;
        ScopeIsDiscovered(known.services, at);
        if all {
          FullScopeSettles(known, at, scope, e.disk);
        } else {
          GeneralIsNoMatter(m, at, before, e.changed);
          SomeOfScopeSettles(known, at, scope, before, e);
        }
      }
    }
  }

  lemma NothingIsConsistent()
    ensures Consistent(NOTHING.schemas, NOTHING.results, {})
  {
  }

  lemma SoundTree(disk: Disk)
    requires IsSound(disk) && FoundOn(disk) != []
    ensures TreeOn(disk).Valid() && TreeOn(disk).RefusalsAreExplained() && TreeOn(disk).ReadsAreEdges()
    ensures TreeOn(disk).NamesAreRecorded()
  {
  }

  ghost predicate LeavesRight(end: RunEnd, at: Place, disk: Disk, services: seq<Service>) {
    && end.memory.services == services
    && Consistent(end.memory.schemas, end.memory.results, {})
    && SettledOn(TreeOn(disk), ScopeNames(services, at), end.memory.schemas, end.memory.results)
  }

  lemma FullScopeSettles(m: Memory, at: Place, scope: seq<Service>, disk: Disk)
    requires IsSound(disk) && m.services == FoundOn(disk) && m.services != []
    requires Consistent(m.schemas, m.results, {}) && ScopeOf(m.services, at) == Some(scope)
    requires TreeOn(disk).Valid() && forall s | s in scope :: s in m.services
    ensures LeavesRight(RunOfScope(m, at, scope, Everything, disk), at, disk, m.services)
  {
    hide CheckRun.Run, SettledAt, Loads, ScopeOf, IsSound;
    var t := TreeOn(disk);
    SoundTree(disk);
    ScopeIsClosed(t, at);
    EdgesCloseReads(t, NamesOf(scope));
    RunSettles(t, NamesOf(scope), m.schemas, m.results, scope);
  }

  lemma SomeOfScopeSettles(m: Memory, at: Place, scope: seq<Service>, before: Disk, e: Edit)
    requires before.Sound() && SoundEdit(before, e) && UpToDate(m, at, before) && IsFollowed(m, at, before, e.changed)
    requires e.changed.Only? && m.services != [] && ScopeOf(m.services, at) == Some(scope)
    requires TreeOn(e.disk).Valid() && forall s | s in scope :: s in m.services
    requires m.services == FoundOn(e.disk)
    ensures LeavesRight(RunOfScope(m, at, scope, e.changed, e.disk), at, e.disk, m.services)
  {
    hide CheckRun.Run, SettledAt, Loads, ScopeOf, IsSound, IsFollowed;
    var t, also := TreeOn(e.disk), ReferencesIn(m.schemas);
    SoundTree(e.disk);
    ScopeIsClosed(t, at);
    UnaffectedIsUnchanged(m, at, before, e);
    IncrementalRun(TreeOn(before), t, NamesOf(scope), m.schemas, m.results, e.changed.names, also);
  }

  /** The loads a followed edit changes are of services the run checks. */
  lemma UnaffectedIsUnchanged(m: Memory, at: Place, before: Disk, e: Edit)
    requires before.Sound() && SoundEdit(before, e) && UpToDate(m, at, before) && IsFollowed(m, at, before, e.changed)
    requires e.changed.Only? && m.services != [] && m.services == FoundOn(e.disk) && TreeOn(e.disk).Valid()
    ensures forall n |
      && n in ScopeNames(m.services, at) && n in e.disk.loads
      && !Affected(m.services, ReferencesIn(m.schemas), e.changed.names, n) ::
      n in before.loads && e.disk.loads[n] == before.loads[n]
  {
    hide Affected, IsSound, ScopeOf;
  }

  // Blame

  ghost predicate FindsNearby(disk: Disk, at: Place) {
    disk.discovery.Found? ==> FindingsAreNear(TreeOn(disk), NearOn(disk, at))
  }

  /** And every failure of what it answers for blamed along a path that ends at an error. */
  lemma RunStaysAccounted(m: Memory, at: Place, before: Disk, e: Edit)
    requires IsSound(before) && SoundEdit(before, e) && UpToDate(m, at, before) && IsFollowed(m, at, before, e.changed)
    requires AccountedFor(m, at, before) && FindsNearby(e.disk, at)
    ensures AccountedFor(Watched(m, at, before, e).memory, at, e.disk)
  {
    hide CheckRun.Run, SettledOn, ScopeOf, RunOfScope, Consistent, FindsNearby, Accounted, IsFollowed, NoClosure;
    hide Findings, Tree.RefusalsAreExplained, Tree.ReadsAreEdges, Tree.NamesAreRecorded;
    var all := e.changed.Everything? || m.services == [];
    var known := m.(services := FoundOn(e.disk), general := []);
    if known.services == [] || ScopeOf(known.services, at).None? {
      NoneInScope(at);
      NoScopeIsAccounted(Watched(m, at, before, e).memory, at, e.disk);
    } else {
      SoundTree(e.disk);
      var scope := ScopeOf(known.services, at).value;
      ScopeIsDiscovered(known.services, at);
      if all {
        FullScopeAccounts(known, at, scope, e.disk);
      } else {
        GeneralIsNoMatter(m, at, before, e.changed);
        SomeOfScopeAccounts(known, at, scope, before, e);
      }
    }
  }

  lemma GeneralIsNoMatter(m: Memory, at: Place, before: Disk, changed: Changes)
    ensures UpToDate(m.(general := []), at, before) <==> UpToDate(m, at, before)
    ensures AccountedFor(m.(general := []), at, before) <==> AccountedFor(m, at, before)
    ensures IsFollowed(m.(general := []), at, before, changed) <==> IsFollowed(m, at, before, changed)
  {
    hide Accounted, SettledOn, Consistent, Affected, ScopeOf;
  }

  lemma NoScopeIsAccounted(m: Memory, at: Place, disk: Disk)
    requires ScopeOf(m.services, at).None?
    ensures AccountedFor(m, at, disk)
  {
  }

  lemma ScopeIsClosedUnder(disk: Disk, at: Place)
    requires TreeOn(disk).Valid() && ScopeOf(FoundOn(disk), at).Some?
    ensures ClosedUnder(TreeOn(disk), NearOn(disk, at), ScopeNames(FoundOn(disk), at))
  {
    hide ScopeOf;
    var t := TreeOn(disk);
    ScopeIsClosed(t, at);
    if at.target == "" {
      WholeScope(t.services, at);
    } else {
      forall n, d | n in ScopeNames(t.services, at) && DependsOn(t.services, NoReferences(), n, d) && d in t.Names()
        ensures d in ScopeNames(t.services, at)
      {
        var s :| s in t.services && s.name == n && d in EdgesOf(s, NoReferences());
        assert d in s.edges;
      }
    }
  }

  lemma WholeScope(services: seq<Service>, at: Place)
    requires at.target == ""
    ensures ScopeNames(services, at) == NamesOf(services)
  {
  }

  lemma FullScopeAccounts(m: Memory, at: Place, scope: seq<Service>, disk: Disk)
    requires IsSound(disk) && FindsNearby(disk, at) && m.services == FoundOn(disk) && m.services != []
    requires Consistent(m.schemas, m.results, {}) && ScopeOf(m.services, at) == Some(scope)
    requires TreeOn(disk).Valid() && forall s | s in scope :: s in m.services
    ensures var end := RunOfScope(m, at, scope, Everything, disk);
      Accounted(m.services, NearOn(disk, at), ScopeNames(m.services, at), end.memory.results)
  {
    hide CheckRun.Run, SettledAt, Loads, ScopeOf, IsSound, FindingsAreNear, BlockersAreNear, NearOn;
    var t, near := TreeOn(disk), NearOn(disk, at);
    SoundTree(disk);
    ScopeIsClosedUnder(disk, at);
    var known := KnownResults(m.results, t.Names());
    RunForgets(t, m.schemas, m.results, scope);
    assert NamesOf(scope) - NamesOf(scope) == {};
    NothingToAccount(t.services, near, known);
    RunAccounts(t, near, NamesOf(scope), KnownSchemas(m.schemas, m.results.Keys, t.Names()), known, scope);
  }

  lemma NothingToAccount(services: seq<Service>, near: Edges, results: CheckRun.Results)
    ensures Accounted(services, near, {}, results)
  {
  }

  lemma SomeOfScopeAccounts(m: Memory, at: Place, scope: seq<Service>, before: Disk, e: Edit)
    requires IsSound(before) && SoundEdit(before, e) && UpToDate(m, at, before) && IsFollowed(m, at, before, e.changed)
    requires AccountedFor(m, at, before) && FindsNearby(e.disk, at) && m.services == FoundOn(e.disk)
    requires e.changed.Only? && m.services != [] && ScopeOf(m.services, at) == Some(scope)
    requires TreeOn(e.disk).Valid() && forall s | s in scope :: s in m.services
    ensures var end := RunOfScope(m, at, scope, e.changed, e.disk);
      Accounted(m.services, NearOn(e.disk, at), ScopeNames(m.services, at), end.memory.results)
  {
    hide CheckRun.Run, SettledAt, Loads, ScopeOf, FindingsAreNear, Accounted, NearOn, IsFollowed, SoundEdit;
    hide Tree.NamesAreRecorded, Tree.RefusalsAreExplained, Tree.ReadsAreEdges, Findings, Affected, KeptApart;
    EditIsSound(before, e);
    var t, also := TreeOn(e.disk), ReferencesIn(m.schemas);
    var affected := AffectedNames(t.services, also, e.changed.names);
    var toCheck := Named(t.services, affected * NamesOf(scope));
    SoundTree(e.disk);
    ScopeIsClosed(t, at);
    ScopeIsClosedUnder(e.disk, at);
    NamesOfNamed(t.services, affected * NamesOf(scope));
    forall n | n in NamesOf(scope) && n !in affected ensures SettledAt(t, m.schemas, m.results, n) {
      UnaffectedIsSettled(m, at, before, e, n);
    }
    KeptIsApart(m, at, before, e);
    KeptIsAccounted(m, at, before, e, NamesOf(toCheck));
    RunAccounts(t, NearOn(e.disk, at), NamesOf(scope), m.schemas, m.results, toCheck);
  }

  /** What a schema records is what its load's decorator arguments name. */
  lemma HeldAreNamed(m: Memory, at: Place, disk: Disk, n: string)
    requires IsSound(disk) && UpToDate(m, at, disk) && n in ScopeNames(m.services, at) && n in m.schemas
    ensures n in disk.loads && m.schemas[n].references == disk.loads[n].named
  {
    hide Loads, ScopeOf;
    var t := TreeOn(disk);
    assert SettledAt(t, m.schemas, m.results, n);
    LoadsAreAFixedPoint(t);
    LoadsAreServices(t);
    var s :| s in t.services && s.name == n;
    assert n in Round(t, Loads(t));
    assert t.loads[s.name].finish(At(t.loads[n].asks, Loads(t))).verdict.Loaded?;
  }

  /** What a checker of every service knows of decorator arguments is on disk. */
  lemma FollowedIsNamed(m: Memory, at: Place, disk: Disk)
    requires IsSound(disk) && UpToDate(m, at, disk) && at.target == ""
    ensures forall s, d | s in m.services && d in ReferencesIn(m.schemas)(s) :: d in EdgesOf(s, NamedOn(disk))
  {
    hide IsSound, UpToDate, ScopeOf;
    WholeScope(m.services, at);
    forall s, d | s in m.services && d in ReferencesIn(m.schemas)(s) ensures d in EdgesOf(s, NamedOn(disk)) {
      HeldAreNamed(m, at, disk, s.name);
    }
  }

  /** No service kept from before depends on one checked again. */
  lemma KeptIsApart(m: Memory, at: Place, before: Disk, e: Edit)
    requires IsSound(before) && SoundEdit(before, e) && UpToDate(m, at, before) && IsFollowed(m, at, before, e.changed)
    requires e.changed.Only? && m.services != [] && m.services == FoundOn(e.disk) && TreeOn(e.disk).Valid()
    ensures var scope, affected := ScopeNames(m.services, at),
        AffectedNames(m.services, ReferencesIn(m.schemas), e.changed.names);
      KeptApart(TreeOn(e.disk), NearOn(e.disk, at), scope, Named(m.services, affected * scope))
  {
    hide Affected, DependsOn, UpToDate, IsSound, SoundEdit, IsFollowed, ScopeOf, NearOn;
    var scope, also := ScopeNames(m.services, at), ReferencesIn(m.schemas);
    var affected := AffectedNames(m.services, also, e.changed.names);
    forall n, d | n in scope && DependsOn(m.services, NearOn(e.disk, at), n, d) && d in affected
      ensures n in affected
    {
      DependentIsAffected(m, at, before, e, n, d);
    }
    assert forall n | n in scope && n in affected && n in NamesOf(m.services) ::
      n in NamesOf(Named(m.services, affected * scope));
    ScopeIsNamed(m.services, at);
  }

  lemma ScopeIsNamed(services: seq<Service>, at: Place)
    ensures ScopeNames(services, at) <= NamesOf(services)
  {
  }

  lemma DependentIsAffected(m: Memory, at: Place, before: Disk, e: Edit, n: string, d: string)
    requires IsSound(before) && SoundEdit(before, e) && UpToDate(m, at, before) && IsFollowed(m, at, before, e.changed)
    requires e.changed.Only? && m.services != [] && m.services == FoundOn(e.disk) && TreeOn(e.disk).Valid()
    requires n in ScopeNames(m.services, at) && DependsOn(m.services, NearOn(e.disk, at), n, d)
    requires Affected(m.services, ReferencesIn(m.schemas), e.changed.names, d)
    ensures Affected(m.services, ReferencesIn(m.schemas), e.changed.names, n)
  {
    hide Affected, ScopeOf, ReferencesIn, Tree.RefusalsAreExplained, Tree.ReadsAreEdges, Tree.NamesAreRecorded;
    hide Findings;
    var also, names := ReferencesIn(m.schemas), e.changed.names;
    var s :| s in m.services && s.name == n && d in EdgesOf(s, NearOn(e.disk, at));
    if d in s.edges {
      ConfigsCount(m.services, also, s, d);
      AffectedStep(m.services, also, names, d, n);
    } else if !Affected(m.services, also, names, n) {
      UnaffectedIsUnchanged(m, at, before, e);
      assert d in EdgesOf(s, NamedOn(before));
      assert DependsOn(m.services, NamedOn(before), n, d);
      FollowedIsNamed(m, at, before);
      MoreEdgesAffectMore(m.services, also, NamedOn(before), names, d);
      AffectedStep(m.services, NamedOn(before), names, d, n);
    }
  }

  lemma KeptIsAccounted(m: Memory, at: Place, before: Disk, e: Edit, checked: set<string>)
    requires before.Sound() && SoundEdit(before, e) && UpToDate(m, at, before) && IsFollowed(m, at, before, e.changed)
    requires e.changed.Only? && m.services != [] && m.services == FoundOn(e.disk) && TreeOn(e.disk).Valid()
    requires AccountedFor(m, at, before)
    requires checked == NamesOf(m.services)
        * AffectedNames(m.services, ReferencesIn(m.schemas), e.changed.names) * ScopeNames(m.services, at)
    ensures Accounted(m.services, NearOn(e.disk, at), ScopeNames(m.services, at) - checked, m.results)
  {
    hide Affected, ScopeOf, IsSound, IsFollowed, SettledOn;
    UnaffectedIsUnchanged(m, at, before, e);
    ScopeIsNamed(m.services, at);
    forall n, d | n in ScopeNames(m.services, at) - checked && n in m.results && d in m.results[n].blockedBy
      ensures IsNear(m.services, NearOn(e.disk, at), n, d)
    {
      if d != n {
        var s :| s in m.services && s.name == n && d in EdgesOf(s, NearOn(before, at));
        assert d in EdgesOf(s, NearOn(e.disk, at));
      }
    }
  }

  lemma UnaffectedIsSettled(m: Memory, at: Place, before: Disk, e: Edit, n: string)
    requires before.Sound() && SoundEdit(before, e) && UpToDate(m, at, before) && IsFollowed(m, at, before, e.changed)
    requires e.changed.Only? && m.services != [] && ScopeOf(m.services, at).Some? && m.services == FoundOn(e.disk)
    requires n in ScopeNames(m.services, at)
    requires !Affected(FoundOn(e.disk), ReferencesIn(m.schemas), e.changed.names, n)
    ensures SettledAt(TreeOn(e.disk), m.schemas, m.results, n)
  {
    hide CheckRun.Run, SettledAt, Loads, ScopeOf, IsSound, Affected, IsFollowed;
    var t, also := TreeOn(e.disk), ReferencesIn(m.schemas);
    SoundTree(e.disk);
    ScopeIsClosed(t, at);
    UnaffectedIsUnchanged(m, at, before, e);
    UnaffectedStays(TreeOn(before), t, ScopeNames(m.services, at), m.schemas, m.results, e.changed.names, also, n);
  }

  // Sequences of runs

  /** Edits each of which the run after it can find out. */
  ghost predicate SoundEdits(m: Memory, at: Place, before: Disk, edits: seq<Edit>)
    requires m.services == FoundOn(before) && before.Sound()
    decreases |edits|
  {
    edits != [] ==>
      && SoundEdit(before, edits[0]) && IsFollowed(m, at, before, edits[0].changed)
      && SoundEdits(Watched(m, at, before, edits[0]).memory, at, edits[0].disk, edits[1..])
  }

  /** The disk after a sequence of edits. */
  ghost function DiskAfter(before: Disk, edits: seq<Edit>): Disk {
    if edits == [] then before else edits[|edits| - 1].disk
  }

  ghost function AfterEdits(m: Memory, at: Place, before: Disk, edits: seq<Edit>): (m': Memory)
    requires m.services == FoundOn(before) && before.Sound() && SoundEdits(m, at, before, edits)
    decreases |edits|
  {
    if edits == [] then m
    else AfterEdits(Watched(m, at, before, edits[0]).memory, at, edits[0].disk, edits[1..])
  }

  /** A run for each of any sequence of edits, failed discoveries among them, leaves the checker right for
      the last disk. */
  lemma {:induction false} WatchStaysUpToDate(m: Memory, at: Place, before: Disk, edits: seq<Edit>)
    requires before.Sound() && UpToDate(m, at, before) && SoundEdits(m, at, before, edits)
    ensures UpToDate(AfterEdits(m, at, before, edits), at, DiskAfter(before, edits))
    decreases |edits|
  {
    hide SettledOn, ScopeOf, Consistent, AfterRun, SoundEdit, IsFollowed;
    if edits != [] {
      var e := edits[0];
      RunStaysUpToDate(m, at, before, e);
      EditIsSound(before, e);
      WatchStaysUpToDate(Watched(m, at, before, e).memory, at, e.disk, edits[1..]);
    }
  }

  lemma EditIsSound(before: Disk, e: Edit)
    requires SoundEdit(before, e)
    ensures IsSound(e.disk) && e.disk.Sound()
  {
  }

  /** And accountable for every failure, where findings are near: in a load's own files or those of services
      it depends on. */
  lemma {:induction false} WatchStaysAccounted(m: Memory, at: Place, before: Disk, edits: seq<Edit>)
    requires IsSound(before) && UpToDate(m, at, before) && AccountedFor(m, at, before)
    requires SoundEdits(m, at, before, edits) && forall e | e in edits :: FindsNearby(e.disk, at)
    ensures AccountedFor(AfterEdits(m, at, before, edits), at, DiskAfter(before, edits))
    decreases |edits|
  {
    hide SettledOn, ScopeOf, Consistent, AfterRun, SoundEdit, AccountedFor, FindsNearby, IsFollowed;
    if edits != [] {
      var e := edits[0];
      RunStaysUpToDate(m, at, before, e);
      RunStaysAccounted(m, at, before, e);
      EditIsSound(before, e);
      WatchStaysAccounted(Watched(m, at, before, e).memory, at, e.disk, edits[1..]);
    }
  }

  // Against a check from nothing

  /** Two checkers hold the same services, and the same schema and failure of each they answer for. */
  ghost predicate Agree(a: Memory, b: Memory, at: Place) {
    && a.services == b.services
    && (ScopeOf(a.services, at).Some? ==> forall n | n in ScopeNames(a.services, at) ::
          && (n in a.schemas <==> n in b.schemas) && (n in a.schemas ==> a.schemas[n] == b.schemas[n])
          && n in a.results && n in b.results && a.results[n].failed == b.results[n].failed)
  }

  /** Two checkers right for one disk agree. */
  lemma UpToDateAgree(a: Memory, b: Memory, at: Place, disk: Disk)
    requires UpToDate(a, at, disk) && UpToDate(b, at, disk)
    ensures Agree(a, b, at)
  {
    hide Loads, ScopeOf, ScopeNames;
    if ScopeOf(a.services, at).Some? {
      forall n | n in ScopeNames(a.services, at)
        ensures SettledAt(TreeOn(disk), a.schemas, a.results, n) && SettledAt(TreeOn(disk), b.schemas, b.results, n) {}
    }
  }

  /** A disk on which nothing is discovered. */
  const NO_DISK := Disk(Undiscovered(Plain("")), map[], [])

  lemma NothingIsUpToDate(at: Place)
    ensures UpToDate(NOTHING, at, NO_DISK) && NO_DISK.Sound() && AccountedFor(NOTHING, at, NO_DISK)
    ensures IsSound(NO_DISK) && IsFollowed(NOTHING, at, NO_DISK, Everything)
  {
  }

  /** After any sequence of edits a watch holds, of every service it answers for, the schema and the failure
      that a check from nothing of the disk they leave would find. */
  lemma WatchAgreesWithAFullCheck(m: Memory, at: Place, before: Disk, edits: seq<Edit>)
    requires before.Sound() && UpToDate(m, at, before) && SoundEdits(m, at, before, edits)
    requires IsSound(DiskAfter(before, edits))
    ensures Agree(AfterEdits(m, at, before, edits), CheckFromNothing(at, DiskAfter(before, edits)), at)
  {
    hide SettledOn, Consistent, ScopeOf, ScopeNames, AfterEdits, AfterRun, SoundEdits, Agree;
    var disk := DiskAfter(before, edits);
    WatchStaysUpToDate(m, at, before, edits);
    FromNothingIsUpToDate(at, disk);
    UpToDateAgree(AfterEdits(m, at, before, edits), CheckFromNothing(at, disk), at, disk);
  }

  ghost function CheckFromNothing(at: Place, disk: Disk): Memory
    requires disk.Sound()
  {
    AfterRun(NOTHING, at, Everything, disk).memory
  }

  lemma FromNothingIsUpToDate(at: Place, disk: Disk)
    requires IsSound(disk)
    ensures UpToDate(CheckFromNothing(at, disk), at, disk)
  {
    hide UpToDate, AfterRun, IsFollowed;
    NothingIsUpToDate(at);
    RunStaysUpToDate(NOTHING, at, NO_DISK, Edit(disk, Everything));
  }

  // Reports

  /** A checker that answers for nothing says why. */
  ghost predicate Tells(m: Memory, at: Place) {
    ScopeOf(m.services, at).None? ==> exists d :: d in m.general && d.severity == Error
  }

  lemma {:induction false} FindingsAnywhere(e: LoadError, dir: string, dir': string)
    ensures |Findings(e, dir)| == |Findings(e, dir')|
  {
    match e
    case Joined(errors) => FindingsOfAllAnywhere(errors, dir, dir');
    case Wrapped(_, inner) => FindingsAnywhere(inner, dir, dir');
    case _ =>
  }

  lemma {:induction false} FindingsOfAllAnywhere(errors: seq<LoadError>, dir: string, dir': string)
    ensures |FindingsOfAll(errors, dir)| == |FindingsOfAll(errors, dir')|
  {
    if errors != [] {
      FindingsAnywhere(errors[0], dir, dir');
      FindingsOfAllAnywhere(errors[1..], dir, dir');
    }
  }

  /** A run that discovers nothing, or whose target's closure is not whole, leaves an error no service owns. */
  lemma RunTells(m: Memory, at: Place, changed: Changes, disk: Disk)
    requires IsSound(disk) && (changed.Only? && m.services != [] ==> Tree(m.services, disk.loads).Valid())
    ensures Tells(AfterRun(m, at, changed, disk).memory, at)
  {
    hide ScopeOf, RunOfScope, Tree.Valid, Tree.RefusalsAreExplained, Tree.ReadsAreEdges, Tree.NamesAreRecorded;
    var all := changed.Everything? || m.services == [];
    var services := if all then FoundOn(disk) else m.services;
    if services == [] {
      FindingsAnywhere(disk.discovery.error, "", at.schemasRoot);
      assert Findings(disk.discovery.error, at.schemasRoot)[0] in AfterRun(m, at, changed, disk).memory.general;
    } else {
      ClosureIsMissed(services, at);
    }
  }

  lemma ClosureIsMissed(services: seq<Service>, at: Place)
    ensures exists d :: d in NoClosure(services, at) && d.severity == Error
  {
    assert NoClosure(services, at)[0] in NoClosure(services, at);
  }

  /** An OK report of a checker that is right and accountable is of some scope, and every service of it loads. */
  lemma WatchedOkMeansLoaded(m: Memory, at: Place, disk: Disk, checked: seq<string>, report: Report)
    requires disk.Sound() && UpToDate(m, at, disk) && AccountedFor(m, at, disk) && Tells(m, at)
    requires Reports(report, m.general, m.results, checked, ReportedScope(m.services, at)) && report.ok
    ensures ScopeOf(m.services, at).Some?
    ensures forall n | n in ScopeNames(m.services, at) :: n in Loads(TreeOn(disk))
  {
    hide Reports, Loads, Accounted, NearOn;
    var t, scope := TreeOn(disk), ReportedScope(m.services, at);
    OkMeansNoErrors(report, m.general, m.results, checked, scope);
    ScopeIsClosedUnder(disk, at);
    OkMeansScopeLoaded(t, NearOn(disk, at), scope, m.schemas, m.results, m.general, checked, report);
  }
}
