/** `check --watch`: a check repeated until no sentinel is rewritten, and again after every edit seen. */
module Watch {
  import opened CheckTypes
  import opened CheckRun
  import opened CheckReport
  import opened CheckEngine
  import opened Order
  import opened WatchFiles
  import opened WatchRuns

  // Runs until nothing is rewritten

  /** How many runs a settled run makes at most. */
  const SETTLED_RUNS := 3

  /** The services a run knows once it has discovered those it needs to. */
  ghost function Known(services: seq<Service>, changed: Changes, disk: Disk): seq<Service> {
    if changed.Everything? || services == [] then FoundOn(disk) else services
  }

  /** Every service a settled run knows can be loaded from each disk its runs find. */
  ghost predicate CanSettle(services: seq<Service>, changed: Changes, disks: nat -> Disk) {
    CanRunOn(Known(services, changed, disks(0)), disks)
  }

  ghost predicate CanRunOn(services: seq<Service>, disks: nat -> Disk) {
    forall i: nat :: disks(i).Sound() && (services != [] ==> Tree(services, disks(i).loads).Valid())
  }

  /** The first run of a settled run. */
  ghost function FirstRun(m: Memory, at: Place, changed: Changes, disks: nat -> Disk): (end: RunEnd)
    requires CanSettle(m.services, changed, disks)
    ensures CanRunOn(end.memory.services, disks) && (end.memory.services == [] ==> end.rewrote == [])
  {
    assert disks(0).Sound();
    AfterRun(m, at, changed, disks(0))
  }

  /** The run after one that rewrote sentinels: of the services they belong to. */
  ghost function NextRun(end: RunEnd, at: Place, disks: nat -> Disk, i: nat): (next: RunEnd)
    requires CanRunOn(end.memory.services, disks) && end.memory.services != []
    ensures next.memory.services == end.memory.services
  {
    assert disks(i).Sound();
    AfterRun(end.memory, at, Only(end.rewrote), disks(i))
  }

  /** The runs from the `i`th on, after one that ended so. */
  ghost function RunsFrom(end: RunEnd, at: Place, disks: nat -> Disk, i: nat): (ends: seq<RunEnd>)
    requires CanRunOn(end.memory.services, disks) && (end.memory.services == [] ==> end.rewrote == [])
    ensures i <= SETTLED_RUNS ==> |ends| <= SETTLED_RUNS - i
    decreases SETTLED_RUNS - i
  {
    if i >= SETTLED_RUNS || end.rewrote == [] then []
    else
      var next := NextRun(end, at, disks, i);
      [next] + RunsFrom(next, at, disks, i + 1)
  }

  /** The runs of a settled run, the `i`th of what `disks(i)` holds. */
  ghost function Runs(m: Memory, at: Place, changed: Changes, disks: nat -> Disk): (ends: seq<RunEnd>)
    requires CanSettle(m.services, changed, disks)
    ensures 1 <= |ends| <= SETTLED_RUNS
  {
    var first := FirstRun(m, at, changed, disks);
    [first] + RunsFrom(first, at, disks, 1)
  }

  /** A list, and the names of another that it lacks. */
  function WithMissing(names: seq<string>, more: seq<string>): (r: seq<string>)
    ensures names <= r && forall n :: n in r <==> n in names || n in more
    decreases |more|
  {
    if more == [] then names
    else WithMissing(if more[0] in names then names else names + [more[0]], more[1..])
  }

  /** What is missing is added in the order of the other list. */
  lemma {:induction false} MissingComeInOrder(names: seq<string>, more: seq<string>, i: int, j: int)
    requires |names| <= i < j < |WithMissing(names, more)|
    ensures var r := WithMissing(names, more);
      exists k :: 0 <= k < |more| && more[k] == r[i] && forall l | 0 <= l < |more| && more[l] == r[j] :: k < l
    decreases |more|
  {
    var r, longer := WithMissing(names, more), if more[0] in names then names else names + [more[0]];
    MissingAreMissing(longer, more[1..], j);
    if i < |longer| {
      assert r[i] == more[0] && more[0] in longer;
    } else {
      MissingComeInOrder(longer, more[1..], i, j);
      var k :| 0 <= k < |more[1..]| && more[1..][k] == r[i]
        && forall l | 0 <= l < |more[1..]| && more[1..][l] == r[j] :: k < l;
      assert more[k + 1] == r[i];
      assert more[0] in longer;
      forall l | 0 < l < |more| && more[l] == r[j] ensures k + 1 < l { assert more[1..][l - 1] == r[j]; }
    }
  }

  lemma {:induction false} MissingAreMissing(names: seq<string>, more: seq<string>, j: int)
    requires |names| <= j < |WithMissing(names, more)|
    ensures WithMissing(names, more)[j] !in names
    decreases |more|
  {
    var longer := if more[0] in names then names else names + [more[0]];
    if j >= |longer| {
      MissingAreMissing(longer, more[1..], j);
    }
  }

  /** The services the runs checked: the last run's first. */
  ghost function CheckedIn(ends: seq<RunEnd>): (checked: seq<string>)
    requires ends != []
    ensures forall n :: n in checked <==> exists end :: end in ends && n in end.checked
    ensures ends[|ends| - 1].checked <= checked
  {
    var last := ends[|ends| - 1];
    if |ends| == 1 then last.checked
    else
      var front := ends[..|ends| - 1];
      assert ends == front + [last];
      WithMissing(last.checked, CheckedIn(front))
  }

  lemma CheckedInOne(end: RunEnd)
    ensures CheckedIn([end]) == end.checked
  {
  }

  lemma CheckedInMore(ends: seq<RunEnd>, end: RunEnd)
    requires ends != []
    ensures CheckedIn(ends + [end]) == WithMissing(end.checked, CheckedIn(ends))
  {
    assert (ends + [end])[..|ends|] == ends;
  }

  lemma ReportsChecked(report: Report, general: seq<Diagnostic>, results: CheckRun.Results, checked: seq<string>,
      scope: seq<Service>)
    requires Reports(report, general, results, checked, scope)
    ensures report.checked == checked
    ensures forall more :: Reports(report.(checked := more), general, results, more, scope)
  {
  }

  lemma RunsBegin(m: Memory, at: Place, changed: Changes, disks: nat -> Disk)
    requires CanSettle(m.services, changed, disks)
    ensures var first := FirstRun(m, at, changed, disks);
      Runs(m, at, changed, disks) == [first] + RunsFrom(first, at, disks, 1)
  {
  }

  lemma RunsGoOn(ends: seq<RunEnd>, end: RunEnd, at: Place, disks: nat -> Disk, i: nat)
    requires CanRunOn(end.memory.services, disks) && (end.memory.services == [] ==> end.rewrote == [])
    ensures i < SETTLED_RUNS && end.rewrote != [] ==>
      var next := NextRun(end, at, disks, i);
      ends + RunsFrom(end, at, disks, i) == ends + [next] + RunsFrom(next, at, disks, i + 1)
    ensures i >= SETTLED_RUNS || end.rewrote == [] ==> ends + RunsFrom(end, at, disks, i) == ends
  {
  }

  /** What the checker and the report so far say once some runs are over. */
  ghost predicate Stands(c: Checker, report: Report, ends: seq<RunEnd>)
    requires ends != []
    reads c, c.results.Values
  {
    var last := ends[|ends| - 1];
    && c.Held() == last.memory && c.rewrote == last.rewrote
    && report.checked == CheckedIn(ends)
    && Reports(report, c.general, c.Results(), CheckedIn(ends), ReportedScope(c.services, c.at))
  }

  method RunFirst(c: Checker, changed: Changes, disks: nat -> Disk) returns (report: Report)
    requires c.Valid() && CanSettle(c.services, changed, disks)
    modifies c, c.results.Values
    ensures c.Valid() && fresh(c.results.Values - old(c.results.Values))
    ensures Stands(c, report, [FirstRun(old(c.Held()), c.at, changed, disks)])
  {
    hide AfterRun, Reports, Tree.Valid, ReportedScope, CheckedIn;
    ghost var end := FirstRun(c.Held(), c.at, changed, disks);
    report := c.Run(changed, disks(0));
    CheckedInOne(end);
    ReportsChecked(report, c.general, c.Results(), end.checked, ReportedScope(c.services, c.at));
  }

  /** One more run, whose report takes in the services the runs before it checked. */
  method RunAgain(c: Checker, report: Report, disks: nat -> Disk, i: nat, ghost ends: seq<RunEnd>)
    returns (next: Report)
    requires c.Valid() && CanRunOn(c.services, disks) && c.services != []
    requires ends != [] && Stands(c, report, ends)
    modifies c, c.results.Values
    ensures c.Valid() && fresh(c.results.Values - old(c.results.Values))
    ensures Stands(c, next, ends + [NextRun(ends[|ends| - 1], c.at, disks, i)])
  {
    hide AfterRun, Reports, Tree.Valid, ReportedScope, CheckedIn;
    ghost var end := NextRun(ends[|ends| - 1], c.at, disks, i);
    assert disks(i).Sound();
    next := c.Run(Only(c.rewrote), disks(i));
    ReportsChecked(next, c.general, c.Results(), end.checked, ReportedScope(c.services, c.at));
    CheckedInMore(ends, end);
    next := next.(checked := WithMissing(next.checked, report.checked));
  }

  /** A check, then another of each service whose sentinel the last one rewrote, up to three in all. The
      report is the last one's, of all the services any of them checked. */
  method RunSettled(c: Checker, changed: Changes, disks: nat -> Disk) returns (report: Report)
    requires c.Valid() && CanSettle(c.services, changed, disks)
    modifies c, c.results.Values
    ensures c.Valid() && fresh(c.results.Values - old(c.results.Values))
    ensures Stands(c, report, Runs(old(c.Held()), c.at, changed, disks))
  {
    hide AfterRun, FirstRun, NextRun, Runs, RunsFrom, Reports, CanRunOn, ReportedScope, CheckedIn, Checker.Results;
    hide Checker.Valid;
    ghost var runs := Runs(c.Held(), c.at, changed, disks);
    ghost var ends := [FirstRun(c.Held(), c.at, changed, disks)];
    RunsBegin(c.Held(), c.at, changed, disks);
    report := RunFirst(c, changed, disks);
    var i := 1;
    while i < SETTLED_RUNS && c.rewrote != []
      invariant 1 <= i == |ends| <= SETTLED_RUNS
      invariant c.Valid() && fresh(c.results.Values - old(c.results.Values)) && Stands(c, report, ends)
      invariant CanRunOn(c.services, disks) && (c.services == [] ==> c.rewrote == [])
      invariant runs == ends + RunsFrom(ends[i - 1], c.at, disks, i)
    {
      RunsGoOn(ends, ends[i - 1], c.at, disks, i);
      report := RunAgain(c, report, disks, i, ends);
      ends := ends + [NextRun(ends[i - 1], c.at, disks, i)];
      i := i + 1;
    }
    RunsGoOn(ends, ends[i - 1], c.at, disks, i);
  }

  // What a settled run leaves

  ghost function AfterSettled(m: Memory, at: Place, changed: Changes, disks: nat -> Disk): Memory
    requires CanSettle(m.services, changed, disks)
  {
    var runs := Runs(m, at, changed, disks);
    runs[|runs| - 1].memory
  }

  /** What each run from the `i`th on is told, and finds: the sentinels the run before it rewrote. */
  ghost function SentinelEdits(end: RunEnd, at: Place, disks: nat -> Disk, i: nat): seq<Edit>
    requires CanRunOn(end.memory.services, disks) && (end.memory.services == [] ==> end.rewrote == [])
    decreases SETTLED_RUNS - i
  {
    if i >= SETTLED_RUNS || end.rewrote == [] then []
    else [Edit(disks(i), Only(end.rewrote))] + SentinelEdits(NextRun(end, at, disks, i), at, disks, i + 1)
  }

  ghost function EditsOf(m: Memory, at: Place, changed: Changes, disks: nat -> Disk): (edits: seq<Edit>)
    requires CanSettle(m.services, changed, disks)
    ensures edits != []
  {
    [Edit(disks(0), changed)] + SentinelEdits(FirstRun(m, at, changed, disks), at, disks, 1)
  }

  /** The runs of a settled run are those of a watch whose edits are the first one's and the sentinels'. */
  lemma {:induction false} RunsFollowSentinels(end: RunEnd, at: Place, disks: nat -> Disk, i: nat, before: Disk)
    requires CanRunOn(end.memory.services, disks) && (end.memory.services == [] ==> end.rewrote == [])
    requires end.memory.services == FoundOn(before) && before.Sound()
    requires SoundEdits(end.memory, at, before, SentinelEdits(end, at, disks, i))
    ensures var ends := [end] + RunsFrom(end, at, disks, i);
      ends[|ends| - 1].memory == AfterEdits(end.memory, at, before, SentinelEdits(end, at, disks, i))
    decreases SETTLED_RUNS - i
  {
    hide AfterRun, SoundEdit, CanRunOn, IsFollowed;
    if i < SETTLED_RUNS && end.rewrote != [] {
      var next := NextRun(end, at, disks, i);
      var e := Edit(disks(i), Only(end.rewrote));
      var rest := SentinelEdits(next, at, disks, i + 1);
      assert SentinelEdits(end, at, disks, i) == [e] + rest && ([e] + rest)[1..] == rest;
      assert RunsFrom(end, at, disks, i) == [next] + RunsFrom(next, at, disks, i + 1);
      EditIsSound(before, e);
      assert next == Watched(end.memory, at, before, e);
      RunsFollowSentinels(next, at, disks, i + 1, e.disk);
    }
  }

  lemma RunsFollowEdits(m: Memory, at: Place, before: Disk, changed: Changes, disks: nat -> Disk)
    requires CanSettle(m.services, changed, disks) && m.services == FoundOn(before) && before.Sound()
    requires SoundEdits(m, at, before, EditsOf(m, at, changed, disks))
    ensures AfterSettled(m, at, changed, disks)
      == AfterEdits(m, at, before, EditsOf(m, at, changed, disks))
  {
    hide AfterRun, SoundEdit, CanRunOn, IsFollowed;
    var first, e := FirstRun(m, at, changed, disks), Edit(disks(0), changed);
    var rest := SentinelEdits(first, at, disks, 1);
    assert ([e] + rest)[1..] == rest;
    EditIsSound(before, e);
    assert first == Watched(m, at, before, e);
    RunsFollowSentinels(first, at, disks, 1, disks(0));
  }

  // A watch

  /** One look of a watch: the files as it finds them, and what the runs after it find. */
  datatype Look = Look(files: Snapshot, disks: nat -> Disk)

  /** What the runs after a look are told, if it finds an edit. */
  ghost function Told(services: seq<Service>, seen: Snapshot, look: Look): Changes {
    FilesChange(services, SortedNames(Differences(seen, look.files)))
  }

  ghost predicate CanFollow(services: seq<Service>, seen: Snapshot, look: Look) {
    Differences(seen, look.files) != {} ==> CanSettle(services, Told(services, seen, look), look.disks)
  }

  ghost function AfterLook(m: Memory, at: Place, seen: Snapshot, look: Look): Memory
    requires CanFollow(m.services, seen, look)
  {
    if Differences(seen, look.files) == {} then m
    else AfterSettled(m, at, Told(m.services, seen, look), look.disks)
  }

  ghost predicate CanFollowAll(m: Memory, at: Place, seen: Snapshot, looks: seq<Look>)
    decreases |looks|
  {
    looks != [] ==>
      && CanFollow(m.services, seen, looks[0])
      && CanFollowAll(AfterLook(m, at, seen, looks[0]), at, looks[0].files, looks[1..])
  }

  ghost function AfterLooks(m: Memory, at: Place, seen: Snapshot, looks: seq<Look>): Memory
    requires CanFollowAll(m, at, seen, looks)
    decreases |looks|
  {
    if looks == [] then m
    else AfterLooks(AfterLook(m, at, seen, looks[0]), at, looks[0].files, looks[1..])
  }

  lemma LooksGoOn(m: Memory, at: Place, seen: Snapshot, looks: seq<Look>, i: nat)
    requires i < |looks| && CanFollowAll(m, at, seen, looks[i..])
    ensures CanFollow(m.services, seen, looks[i])
    ensures var m' := AfterLook(m, at, seen, looks[i]);
      && CanFollowAll(m', at, looks[i].files, looks[i + 1..])
      && AfterLooks(m, at, seen, looks[i..]) == AfterLooks(m', at, looks[i].files, looks[i + 1..])
  {
    assert looks[i..][0] == looks[i] && looks[i..][1..] == looks[i + 1..];
  }

  lemma LooksEnd(m: Memory, at: Place, seen: Snapshot)
    ensures CanFollowAll(m, at, seen, []) && AfterLooks(m, at, seen, []) == m
  {
  }

  /** Whether a report is of what the checker holds. */
  ghost predicate IsCurrent(c: Checker, report: Report)
    reads c, c.results.Values
  {
    exists checked :: Reports(report, c.general, c.Results(), checked, ReportedScope(c.services, c.at))
  }

  lemma StandsCurrent(c: Checker, report: Report, ends: seq<RunEnd>)
    requires ends != [] && Stands(c, report, ends)
    ensures IsCurrent(c, report) && c.Held() == ends[|ends| - 1].memory
  {
  }

  /** One look: nothing when no file differs, else a settled run of the services the files belong to. */
  method Follow(c: Checker, seen: Snapshot, look: Look) returns (reports: seq<Report>)
    requires c.Valid() && CanFollow(c.services, seen, look)
    modifies c, c.results.Values
    ensures c.Valid() && fresh(c.results.Values - old(c.results.Values))
    ensures c.Held() == AfterLook(old(c.Held()), c.at, seen, look)
    ensures reports == [] <==> Differences(seen, look.files) == {}
    ensures reports == [] ==> unchanged(c) && unchanged(c.results.Values)
    ensures |reports| <= 1 && (reports != [] ==> IsCurrent(c, reports[0]))
  {
    hide Runs, CanSettle, Reports, Differences, FilesChange;
    var files := ChangedFiles(seen, look.files);
    if files == [] {
      return [];
    }
    var changed := ServicesOf(c.services, files);
    var report := RunSettled(c, changed, look.disks);
    StandsCurrent(c, report, Runs(old(c.Held()), c.at, changed, look.disks));
    return [report];
  }

  /** The watch: a check of everything, then one look after another, from the files as the first one sees
      them. The reports are what it prints. */
  method Watch(c: Checker, first: Look, looks: seq<Look>) returns (reports: seq<Report>)
    requires c.Valid() && CanSettle(c.services, Everything, first.disks)
    requires CanFollowAll(AfterSettled(c.Held(), c.at, Everything, first.disks), c.at, first.files, looks)
    modifies c, c.results.Values
    ensures c.Valid()
    ensures c.Held() ==
      AfterLooks(AfterSettled(old(c.Held()), c.at, Everything, first.disks), c.at, first.files, looks)
    ensures reports != [] && IsCurrent(c, reports[|reports| - 1])
  {
    hide Runs, CanSettle, IsCurrent, CanFollow, AfterLook, CanFollowAll, AfterLooks, Stands, Checker.Results;
    var report := RunSettled(c, Everything, first.disks);
    StandsCurrent(c, report, Runs(old(c.Held()), c.at, Everything, first.disks));
    reports := [report];
    var seen := first.files;
    ghost var start := AfterSettled(old(c.Held()), c.at, Everything, first.disks);
    assert looks[0..] == looks;
    for i := 0 to |looks|
      invariant c.Valid() && fresh(c.results.Values - old(c.results.Values))
      invariant CanFollowAll(c.Held(), c.at, seen, looks[i..])
      invariant AfterLooks(c.Held(), c.at, seen, looks[i..]) == AfterLooks(start, c.at, first.files, looks)
      invariant reports != [] && IsCurrent(c, reports[|reports| - 1])
    {
      LooksGoOn(c.Held(), c.at, seen, looks, i);
      var more := Follow(c, seen, looks[i]);
      reports := reports + more;
      seen := looks[i].files;
    }
    assert looks[|looks|..] == [];
    LooksEnd(c.Held(), c.at, seen);
  }
}
