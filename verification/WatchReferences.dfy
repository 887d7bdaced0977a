/** What a watch knows of the services that decorator arguments name, and the edits it misses for want of it. */
module WatchReferences {
  import opened CheckTypes
  import opened LeastLoads
  import opened CheckRun
  import opened CheckScope
  import opened CheckTheorems
  import opened CheckReport
  import opened CheckEngine
  import opened BuildPlan
  import opened WatchRuns

  /** A run after an edit, if the edit is sound, leaves the checker right. */
  ghost predicate IsRightAfter(m: Memory, at: Place, before: Disk, e: Edit)
    requires m.services == FoundOn(before) && before.Sound()
  {
    SoundEdit(before, e) ==> UpToDate(Watched(m, at, before, e).memory, at, e.disk)
  }

  /** A run leaves what is known of a service it does not check as it was. */
  lemma RunKeepsUnchecked(t: Tree, schemas: Schemas, results: CheckRun.Results, toCheck: seq<Service>, n: string)
    requires t.Valid() && (forall s | s in toCheck :: s in t.services) && n in t.Names() && n !in NamesOf(toCheck)
    requires n in results && (results[n].failed <==> n !in schemas)
    ensures n in CheckRun.Run(schemas, results, t, toCheck).schemas <==> n in schemas
  {
    hide CheckAll, Tree.Valid;
    assert forall s | s in toCheck :: s.name in NamesOf(toCheck);
    CheckAllLeaves(t, Start(schemas, results, t, toCheck), toCheck, n, n in schemas);
  }

  lemma ScopeKeepsUnaffected(m: Memory, at: Place, scope: seq<Service>, names: seq<string>, disk: Disk, n: string)
    requires Tree(m.services, disk.loads).Valid() && (forall s | s in scope :: s in m.services)
    requires n in NamesOf(scope) && n in m.results && (m.results[n].failed <==> n !in m.schemas)
    requires !Affected(m.services, ReferencesIn(m.schemas), names, n)
    ensures n in RunOfScope(m, at, scope, Only(names), disk).memory.schemas <==> n in m.schemas
  {
    hide CheckRun.Run, Affected;
    SelectedIsDiscovered(m.services, m.schemas, Only(names), scope);
    RunKeepsUnchecked(Tree(m.services, disk.loads), m.schemas, m.results,
      ToCheck(m.services, m.schemas, Only(names), scope), n);
  }

  lemma WatchedIsOfScope(m: Memory, at: Place, before: Disk, e: Edit)
    requires m.services == FoundOn(before) && before.discovery.Found? && before.Sound() && SoundEdit(before, e)
    requires e.changed.Only? && ScopeOf(m.services, at).Some? && Tree(m.services, e.disk.loads).Valid()
    requires forall s | s in ScopeOf(m.services, at).value :: s in m.services
    ensures Watched(m, at, before, e)
      == RunOfScope(m.(general := []), at, ScopeOf(m.services, at).value, e.changed, e.disk)
  {
    hide RunOfScope, ScopeOf, SoundEdit, Tree.Valid;
    assert m.services != [];
  }

  /** A run of what some services affect leaves what is known of any other in scope as it was. */
  lemma UnaffectedIsKept(m: Memory, at: Place, before: Disk, e: Edit, n: string)
    requires before.discovery.Found? && before.Sound() && UpToDate(m, at, before)
    requires e.changed.Only? && SoundEdit(before, e) && n in ScopeNames(m.services, at)
    requires !Affected(m.services, ReferencesIn(m.schemas), e.changed.names, n)
    ensures n in Watched(m, at, before, e).memory.schemas <==> n in m.schemas
  {
    hide RunOfScope, Affected, Loads, Watched, ScopeOf, Tree.RefusalsAreExplained, Tree.ReadsAreEdges;
    hide Tree.NamesAreRecorded, Findings, AfterRun;
    assert SettledAt(TreeOn(before), m.schemas, m.results, n);
    var scope := ScopeOf(m.services, at).value;
    ScopeIsDiscovered(m.services, at);
    WatchedIsOfScope(m, at, before, e);
    ScopeKeepsUnaffected(m.(general := []), at, scope, e.changed.names, e.disk, n);
  }

  // When every edit is followed

  /** A load that now does the opposite: it fails where its schema is held, and loads where none is. */
  function Turned(load: Load, held: bool): Load {
    Load([], load.named, (_: seq<Schema>) =>
      Outcome([], if held then Refused(Plain("turned")) else Loaded(Schema(load.named, ""), [], false)))
  }

  function TurnedOn(disk: Disk, n: string, held: bool): Disk
    requires n in disk.loads
  {
    disk.(loads := disk.loads[n := Turned(disk.loads[n], held)])
  }

  lemma TurnedIsSound(before: Disk, names: seq<string>, n: string, held: bool)
    requires IsSound(before) && before.discovery.Found? && n in before.loads
    requires Affected(FoundOn(before), NamedOn(before), names, n)
    ensures SoundEdit(before, Edit(TurnedOn(before, n, held), Only(names)))
  {
    hide Affected;
    var t, t' := TreeOn(before), TreeOn(TurnedOn(before, n, held));
    assert t'.Names() == t.Names();
    forall s, schemas | s in t'.services && s.name in t'.loads
      ensures var verdict := t'.loads[s.name].finish(schemas).verdict;
        && (verdict.Refused? ==> Findings(verdict.error, s.dir) != [])
        && (verdict.Loaded? ==> verdict.schema.references == t'.loads[s.name].named)
    {
      if s.name != n {
        var verdict := t.loads[s.name].finish(schemas).verdict;
      }
    }
  }

  lemma TurnedLoads(disk: Disk, n: string, held: bool)
    requires n in disk.loads
    ensures n in Loads(TreeOn(TurnedOn(disk, n, held))) <==> !held
  {
    hide Loads;
    var t := TreeOn(TurnedOn(disk, n, held));
    LoadsAreAFixedPoint(t);
    assert n in Round(t, Loads(t)) <==> LoadsAt(t.loads[n], Loads(t));
    assert AllIn(t.loads[n].asks, Loads(t));
  }

  lemma UnfollowedIsWrong(m: Memory, at: Place, before: Disk, names: seq<string>, n: string)
    requires IsSound(before) && before.discovery.Found? && UpToDate(m, at, before) && n in ScopeNames(m.services, at)
    requires Affected(m.services, NamedOn(before), names, n) && !Affected(m.services, ReferencesIn(m.schemas), names, n)
    ensures n in before.loads
    ensures !IsRightAfter(m, at, before, Edit(TurnedOn(before, n, n in m.schemas), Only(names)))
  {
    hide Affected, Loads, Watched, Findings, ScopeOf, Tree.RefusalsAreExplained, Tree.ReadsAreEdges;
    hide Tree.NamesAreRecorded;
    ScopeIsNamed(m.services, at);
    var e := Edit(TurnedOn(before, n, n in m.schemas), Only(names));
    TurnedIsSound(before, names, n, n in m.schemas);
    TurnedLoads(before, n, n in m.schemas);
    UnaffectedIsKept(m, at, before, e, n);
    var m' := Watched(m, at, before, e).memory;
    assert !SettledAt(TreeOn(e.disk), m'.schemas, m'.results, n);
  }

  /** A run after an edit to some services is right, whatever the edit leaves of their loads and of those of
      services that depend on them, exactly when whatever it answers for that depends on one of them does so
      by what it knows. */
  lemma FollowedExactly(m: Memory, at: Place, before: Disk, names: seq<string>)
    requires IsSound(before) && UpToDate(m, at, before)
    ensures IsFollowed(m, at, before, Only(names)) <==>
      forall after: Disk :: IsRightAfter(m, at, before, Edit(after, Only(names)))
  {
    hide SettledOn, Consistent, Watched, SoundEdit, Affected, ScopeOf, Tree.Valid;
    if IsFollowed(m, at, before, Only(names)) {
      forall after: Disk ensures IsRightAfter(m, at, before, Edit(after, Only(names))) {
        if SoundEdit(before, Edit(after, Only(names))) {
          RunStaysUpToDate(m, at, before, Edit(after, Only(names)));
        }
      }
    } else {
      var n :| n in ScopeNames(m.services, at) && Affected(m.services, NamedOn(before), names, n)
        && !Affected(m.services, ReferencesIn(m.schemas), names, n);
      NothingIsNamed(before, at, n);
      UnfollowedIsWrong(m, at, before, names, n);
    }
  }

  lemma NothingIsNamed(disk: Disk, at: Place, n: string)
    requires n in ScopeNames(FoundOn(disk), at)
    ensures disk.discovery.Found?
  {
  }

  /** Every service held without a schema that depends on a changed one does so by what is known. */
  ghost predicate FailuresAreFollowed(m: Memory, before: Disk, names: seq<string>) {
    forall n |
      && n in NamesOf(m.services) && n !in m.schemas
      && Affected(m.services, NamedOn(before), names, n) ::
      Affected(m.services, ReferencesIn(m.schemas), names, n)
  }

  /** For a checker of every service, it is enough that those without a schema do. */
  lemma OnlyFailuresAreMissed(m: Memory, at: Place, before: Disk, names: seq<string>)
    requires IsSound(before) && UpToDate(m, at, before) && at.target == ""
    ensures IsFollowed(m, at, before, Only(names)) <==> FailuresAreFollowed(m, before, names)
  {
    hide UpToDate, IsSound, Affected, ScopeOf;
    WholeScope(m.services, at);
    if FailuresAreFollowed(m, before, names) {
      forall n | n in NamesOf(m.services) && Affected(m.services, NamedOn(before), names, n)
        ensures Affected(m.services, ReferencesIn(m.schemas), names, n)
      {
        ChainIsFollowed(m, at, before, names, n);
      }
    }
  }

  lemma ChainIsFollowed(m: Memory, at: Place, before: Disk, names: seq<string>, n: string)
    requires IsSound(before) && UpToDate(m, at, before) && at.target == ""
    requires FailuresAreFollowed(m, before, names)
    requires Affected(m.services, NamedOn(before), names, n)
    ensures Affected(m.services, ReferencesIn(m.schemas), names, n)
  {
    hide UpToDate, IsSound, DependsOn;
    var held, named := ReferencesIn(m.schemas), NamedOn(before);
    var chain :| Chain(m.services, named, chain) && chain[0] in names && chain[|chain| - 1] == n;
    NamedIsAffected(m.services, names, chain[0]);
    for i := 1 to |chain|
      invariant Affected(m.services, held, names, chain[i - 1]) && Affected(m.services, named, names, chain[i - 1])
    {
      assert DependsOn(m.services, named, chain[i], chain[i - 1]);
      AffectedStep(m.services, named, names, chain[i - 1], chain[i]);
      LinkIsFollowed(m, at, before, chain[i], chain[i - 1]);
      if chain[i] in m.schemas {
        AffectedStep(m.services, held, names, chain[i - 1], chain[i]);
      }
    }
  }

  lemma NamedIsAffected(services: seq<Service>, names: seq<string>, n: string)
    requires n in names
    ensures forall also: Edges :: Affected(services, also, names, n)
  {
    forall also: Edges ensures Affected(services, also, names, n) {
      assert Chain(services, also, [n]);
    }
  }

  lemma LinkIsFollowed(m: Memory, at: Place, before: Disk, n: string, d: string)
    requires IsSound(before) && UpToDate(m, at, before) && at.target == ""
    requires DependsOn(m.services, NamedOn(before), n, d)
    ensures n in NamesOf(m.services)
    ensures n in m.schemas ==> DependsOn(m.services, ReferencesIn(m.schemas), n, d)
  {
    hide UpToDate, IsSound, ScopeOf;
    WholeScope(m.services, at);
    var s :| s in m.services && s.name == n && d in EdgesOf(s, NamedOn(before));
    if n in m.schemas {
      HeldAreNamed(m, at, before, n);
      assert d in EdgesOf(s, ReferencesIn(m.schemas));
    }
  }

  /** So after an OK report of every service the next edit is followed, whichever it is. */
  lemma OkIsFollowed(m: Memory, at: Place, disk: Disk, checked: seq<string>, report: Report, names: seq<string>)
    requires IsSound(disk) && at.target == ""
    requires UpToDate(m, at, disk) && AccountedFor(m, at, disk) && Tells(m, at)
    requires Reports(report, m.general, m.results, checked, ReportedScope(m.services, at)) && report.ok
    ensures IsFollowed(m, at, disk, Only(names))
  {
    hide AccountedFor, Reports, Loads, Affected;
    WatchedOkMeansLoaded(m, at, disk, checked, report);
    WholeScope(m.services, at);
    forall n | n in NamesOf(m.services) ensures n in m.schemas {
      assert SettledAt(TreeOn(disk), m.schemas, m.results, n);
    }
    OnlyFailuresAreMissed(m, at, disk, names);
  }

  // An edit that is missed

  const API := Service("api", "/services/api", [])
  const STACK := Service("stack", "/services/stack", [])

  function LoadsAs(named: seq<string>): Load {
    Load([], named, (_: seq<Schema>) => Outcome([], Loaded(Schema(named, ""), [], false)))
  }

  function FailsAs(named: seq<string>): Load {
    Load([], named, (_: seq<Schema>) => Outcome([], Refused(Plain("no such job"))))
  }

  /** A stack whose decorators name an API, as no config does, and a job of the API that it asks for. */
  function StackOn(jobIsThere: bool): Disk {
    var stack := if jobIsThere then LoadsAs(["api"]) else FailsAs(["api"]);
    Disk(Found([API, STACK]), map["api" := LoadsAs([]), "stack" := stack], [])
  }

  lemma StackIsValid(jobIsThere: bool)
    ensures TreeOn(StackOn(jobIsThere)).Valid()
  {
    hide LoadsAs, FailsAs;
    var t := TreeOn(StackOn(jobIsThere));
    assert t.services[0] == API && t.services[1] == STACK;
  }

  lemma StackIsSound(jobIsThere: bool)
    ensures IsSound(StackOn(jobIsThere))
    ensures "stack" in Loads(TreeOn(StackOn(jobIsThere))) <==> jobIsThere
  {
    hide Loads, Tree.Valid;
    StackIsValid(jobIsThere);
    StackLoads(jobIsThere);
  }

  lemma StackLoads(jobIsThere: bool)
    ensures "stack" in Loads(TreeOn(StackOn(jobIsThere))) <==> jobIsThere
  {
    hide Loads;
    var t := TreeOn(StackOn(jobIsThere));
    LoadsAreAFixedPoint(t);
    assert AllIn(t.loads["stack"].asks, Loads(t));
    assert "stack" in Round(t, Loads(t)) <==> LoadsAt(t.loads["stack"], Loads(t));
  }

  lemma StackIsUnaffected(m: Memory, at: Place)
    requires UpToDate(m, at, StackOn(false)) && at.target == ""
    ensures m.services == [API, STACK] && "stack" in ScopeNames(m.services, at) && "stack" !in m.schemas
    ensures !Affected(m.services, ReferencesIn(m.schemas), ["api"], "stack")
    ensures !IsFollowed(m, at, StackOn(false), Only(["api"]))
  {
    hide Loads, Affected;
    assert m.services[1] == STACK;
    StackIsSound(false);
    assert SettledAt(TreeOn(StackOn(false)), m.schemas, m.results, "stack");
    StackHasNoEdges(ReferencesIn(m.schemas));
    StackIsNamed(false);
  }

  lemma StackHasNoEdges(also: Edges)
    requires also(STACK) == []
    ensures !Affected([API, STACK], also, ["api"], "stack")
  {
    forall chain | Chain([API, STACK], also, chain) && chain[0] in ["api"] ensures chain[|chain| - 1] != "stack" {
      if |chain| > 1 {
        var n, d := chain[|chain| - 1], chain[|chain| - 2];
        assert DependsOn([API, STACK], also, n, d);
      }
    }
  }

  lemma RightStackIsHeld(m: Memory, at: Place)
    requires at.target == "" && UpToDate(m, at, StackOn(true))
    ensures "stack" in m.schemas
  {
    hide Loads;
    assert m.services[1] == STACK;
    StackIsSound(true);
    assert SettledAt(TreeOn(StackOn(true)), m.schemas, m.results, "stack");
  }

  /** Where the job is missing the stack fails. When the API's files give the job back, the run of what they
      affect does not check the stack, which keeps its failure although it now loads. */
  lemma RestoredJobIsMissed(m: Memory, at: Place)
    requires at.target == "" && UpToDate(m, at, StackOn(false))
    ensures StackOn(false).Sound() && SoundEdit(StackOn(false), Edit(StackOn(true), Only(["api"])))
    ensures !IsFollowed(m, at, StackOn(false), Only(["api"]))
    ensures var m' := Watched(m, at, StackOn(false), Edit(StackOn(true), Only(["api"]))).memory;
      "stack" !in m'.schemas && "stack" in Loads(TreeOn(StackOn(true))) && !UpToDate(m', at, StackOn(true))
  {
    hide SettledOn, Consistent, Watched, Loads, Affected, AfterRun, IsSound, IsFollowed, ScopeNames;
    var before, e := StackOn(false), Edit(StackOn(true), Only(["api"]));
    StackIsSound(false);
    StackIsSound(true);
    JobEditIsSound(false);
    StackIsUnaffected(m, at);
    UnaffectedIsKept(m, at, before, e, "stack");
    var m' := Watched(m, at, before, e).memory;
    if UpToDate(m', at, e.disk) {
      RightStackIsHeld(m', at);
    }
  }

  /** The edit that takes the job away is followed, so removing the job and giving it back leaves a watch
      that began with everything in order with a failure that a check from nothing would not find. */
  lemma RemovedThenRestored(at: Place)
    requires at.target == ""
    ensures StackOn(true).Sound() && StackOn(false).Sound()
    ensures SoundEdit(StackOn(true), Edit(StackOn(false), Only(["api"])))
    ensures SoundEdit(StackOn(false), Edit(StackOn(true), Only(["api"])))
    ensures var m := CheckFromNothing(at, StackOn(true));
      var removed := Watched(m, at, StackOn(true), Edit(StackOn(false), Only(["api"]))).memory;
      var restored := Watched(removed, at, StackOn(false), Edit(StackOn(true), Only(["api"]))).memory;
      "stack" in m.schemas && "stack" !in restored.schemas && "stack" in Loads(TreeOn(StackOn(true)))
  {
    hide SettledOn, Consistent, Watched, Loads, Affected, AfterRun, IsSound, IsFollowed, ScopeNames, SoundEdit;
    StackIsSound(true);
    JobEditIsSound(true);
    JobEditIsSound(false);
    var m := CheckFromNothing(at, StackOn(true));
    FromNothingIsUpToDate(at, StackOn(true));
    RightStackIsHeld(m, at);
    RemovedJobIsFollowed(m, at);
    RunStaysUpToDate(m, at, StackOn(true), Edit(StackOn(false), Only(["api"])));
    RestoredJobIsMissed(Watched(m, at, StackOn(true), Edit(StackOn(false), Only(["api"]))).memory, at);
  }

  lemma RemovedJobIsFollowed(m: Memory, at: Place)
    requires at.target == "" && UpToDate(m, at, StackOn(true))
    ensures IsFollowed(m, at, StackOn(true), Only(["api"]))
  {
    hide SettledOn, Consistent, Loads, ScopeOf, Affected, LoadsAs, FailsAs, NamedOn;
    var services, held := [API, STACK], ReferencesIn(m.schemas);
    StackIsSound(true);
    StackRefers(m, at);
    ReferenceAffects(held);
    NamedIsAffected(services, ["api"], "api");
    ScopeIsNamed(services, at);
  }

  lemma StackRefers(m: Memory, at: Place)
    requires at.target == "" && UpToDate(m, at, StackOn(true))
    ensures ReferencesIn(m.schemas)(STACK) == ["api"]
  {
    hide SettledOn, Consistent, Loads, ScopeOf;
    StackIsSound(true);
    RightStackIsHeld(m, at);
    WholeScope(m.services, at);
    assert m.services[1] == STACK;
    HeldAreNamed(m, at, StackOn(true), "stack");
  }

  /** An edge from the stack to the API lets an edit of the API affect it. */
  lemma ReferenceAffects(also: Edges)
    requires also(STACK) == ["api"]
    ensures Affected([API, STACK], also, ["api"], "stack")
  {
    var services := [API, STACK];
    assert services[1] == STACK && also(STACK)[0] == "api";
    assert "api" in EdgesOf(STACK, also);
    assert DependsOn(services, also, "stack", "api");
    assert Chain(services, also, ["api", "stack"]);
    assert ["api", "stack"][0] in ["api"];
  }

  lemma JobEditIsSound(jobIsThere: bool)
    ensures StackOn(jobIsThere).Sound()
    ensures SoundEdit(StackOn(jobIsThere), Edit(StackOn(!jobIsThere), Only(["api"])))
  {
    hide Affected, LoadsAs, FailsAs, Tree.Valid, Tree.RefusalsAreExplained, Tree.ReadsAreEdges, Tree.NamesAreRecorded;
    StackIsSound(jobIsThere);
    StackIsSound(!jobIsThere);
    StackIsNamed(jobIsThere);
  }

  lemma StackIsNamed(jobIsThere: bool)
    ensures Affected([API, STACK], NamedOn(StackOn(jobIsThere)), ["api"], "stack")
  {
    ReferenceAffects(NamedOn(StackOn(jobIsThere)));
  }
}
