/** Why a settled run ends: what its runs list as rewritten, and what that says of the loads of the last. */
module SettledRuns {
  import opened CheckTypes
  import opened CheckRun
  import opened CheckProofs
  import opened CheckFindings
  import opened CheckTrace
  import opened CheckEngine
  import opened Watch
  import WatchFiles

  /** A run lists, once each, the services it checked whose loads rewrite their sentinels: those that make a
      schema, reading the schemas the run ends with, and find their sentinel out of date. */
  ghost predicate ListsRewrites(end: RunEnd, disk: Disk) {
    Distinct(end.rewrote)
    && forall n :: ListsRewrite(disk.loads, end.memory.schemas, end.checked, end.rewrote, n)
  }

  /** And keeps each finding once, by its owner. */
  ghost predicate KeepsFindings(m: Memory, end: RunEnd) {
    && AreTidy(end.memory.results)
    && (ArePlaced(end.memory.services, m.results) ==> ArePlaced(end.memory.services, end.memory.results))
  }

  lemma RunLists(m: Memory, at: Place, changed: Changes, disk: Disk)
    requires disk.Sound() && (changed.Only? && m.services != [] ==> Tree(m.services, disk.loads).Valid())
    requires AreTidy(m.results)
    ensures var end := AfterRun(m, at, changed, disk); ListsRewrites(end, disk) && KeepsFindings(m, end)
  {
    hide CheckRun.Run, ArePlaced, AreTidy, ListsRewrite, ScopeOf;
    var all := changed.Everything? || m.services == [];
    var known := m.(services := if all then FoundOn(disk) else m.services, general := []);
    if known.services == [] {
      NothingIsListed(AfterRun(m, at, changed, disk), disk);
    } else if ScopeOf(known.services, at).Some? {
      ScopeIsDiscovered(known.services, at);
      ScopeLists(known, at, ScopeOf(known.services, at).value, if all then Everything else changed, disk);
    } else {
      NothingIsListed(AfterRun(m, at, changed, disk), disk);
    }
  }

  lemma NothingIsListed(end: RunEnd, disk: Disk)
    requires end.rewrote == [] && end.checked == []
    ensures ListsRewrites(end, disk)
    ensures end.memory.results == map[] ==> AreTidy(end.memory.results)
    ensures end.memory.results == map[] ==> ArePlaced(end.memory.services, end.memory.results)
  {
  }

  lemma ScopeLists(m: Memory, at: Place, scope: seq<Service>, changed: Changes, disk: Disk)
    requires Tree(m.services, disk.loads).Valid() && forall s | s in scope :: s in m.services
    requires AreTidy(m.results)
    ensures var end := RunOfScope(m, at, scope, changed, disk); ListsRewrites(end, disk) && KeepsFindings(m, end)
  {
    hide CheckRun.Run, ArePlaced, AreTidy, ListsRewrite, Distinct;
    var t, toCheck := Tree(m.services, disk.loads), ToCheck(m.services, m.schemas, changed, scope);
    SelectedIsDiscovered(m.services, m.schemas, changed, scope);
    RunListsRewrites(m.schemas, m.results, t, toCheck);
    RunKeepsPlaces(m.schemas, m.results, t, toCheck);
  }

  /** No load checked in a run rewrote a sentinel. */
  ghost predicate RewritesNone(end: RunEnd, disk: Disk) {
    forall n | n in end.checked && n in end.memory.schemas :: !RewritesAt(disk.loads, end.memory.schemas, n)
  }

  // Settled runs

  /** Each run after the first is of the services the run before it lists, and keeps what that one left. */
  ghost predicate Follows(ends: seq<RunEnd>, at: Place, disks: nat -> Disk, from: nat) {
    forall i, j | 0 <= i < j == i + 1 < |ends| :: IsNext(ends[i], ends[j], at, disks, from + j)
  }

  ghost predicate IsNext(end: RunEnd, next: RunEnd, at: Place, disks: nat -> Disk, i: nat) {
    && end.rewrote != []
    && CanRun(end.memory.services, disks(i)) && next == AfterRun(end.memory, at, Only(end.rewrote), disks(i))
  }

  ghost predicate CanRun(services: seq<Service>, disk: Disk) {
    disk.Sound() && Tree(services, disk.loads).Valid()
  }

  /** The first run of a settled run is of what changed. */
  ghost predicate IsFirst(m: Memory, end: RunEnd, at: Place, changed: Changes, disk: Disk) {
    && disk.Sound() && (changed.Everything? || m.services == [] || CanRun(m.services, disk))
    && end == AfterRun(m, at, changed, disk)
  }

  ghost predicate AllList(ends: seq<RunEnd>, disks: nat -> Disk, from: nat) {
    forall i | 0 <= i < |ends| :: ListsRewrites(ends[i], disks(from + i)) && AreTidy(ends[i].memory.results)
  }

  lemma {:induction false} RunsFromList(end: RunEnd, at: Place, disks: nat -> Disk, i: nat)
    requires CanRunOn(end.memory.services, disks) && (end.memory.services == [] ==> end.rewrote == [])
    requires i < SETTLED_RUNS && AreTidy(end.memory.results) && ListsRewrites(end, disks(i))
    ensures var ends := [end] + RunsFrom(end, at, disks, i + 1);
      && AllList(ends, disks, i) && Follows(ends, at, disks, i)
      && (|ends| == SETTLED_RUNS - i || ends[|ends| - 1].rewrote == [])
    decreases SETTLED_RUNS - i
  {
    hide AfterRun, CanRunOn, ListsRewrites, AreTidy, IsNext;
    if i + 1 < SETTLED_RUNS && end.rewrote != [] {
      var next := NextRun(end, at, disks, i + 1);
      NextLists(end, at, disks, i + 1);
      RunsFromList(next, at, disks, i + 1);
      var rest := [next] + RunsFrom(next, at, disks, i + 2);
      var ends := [end] + RunsFrom(end, at, disks, i + 1);
      assert ends == [end] + rest;
      assert forall k | 0 < k < |ends| :: ends[k] == rest[k - 1];
    }
  }

  lemma NextLists(end: RunEnd, at: Place, disks: nat -> Disk, i: nat)
    requires CanRunOn(end.memory.services, disks) && end.memory.services != [] && AreTidy(end.memory.results)
    ensures var next := NextRun(end, at, disks, i);
      && ListsRewrites(next, disks(i)) && AreTidy(next.memory.results)
      && CanRunOn(next.memory.services, disks) && next.memory.services != []
      && (end.rewrote != [] ==> IsNext(end, next, at, disks, i))
  {
    hide AfterRun, ListsRewrites, AreTidy, Tree.Valid;
    assert disks(i).Sound();
    RunLists(end.memory, at, Only(end.rewrote), disks(i));
  }

  /** A settled run ends after its third run, or after one in which no load rewrote a sentinel; each run but
      the last had one that did, and the next is of the services of those. */
  lemma SettledRunEnds(m: Memory, at: Place, changed: Changes, disks: nat -> Disk)
    requires CanSettle(m.services, changed, disks) && AreTidy(m.results)
    ensures var ends := Runs(m, at, changed, disks); var last := |ends| - 1;
      && IsFirst(m, ends[0], at, changed, disks(0)) && Follows(ends, at, disks, 0) && AllList(ends, disks, 0)
      && |ends| <= 3 && (|ends| == 3 || RewritesNone(ends[last], disks(last)))
  {
    hide AfterRun, CanRunOn, AreTidy, RewritesAt, Tree.Valid;
    FirstIsSound(m, changed, disks);
    RunLists(m, at, changed, disks(0));
    RunsBegin(m, at, changed, disks);
    RunsFromList(FirstRun(m, at, changed, disks), at, disks, 0);
    var ends := Runs(m, at, changed, disks);
    var last := |ends| - 1;
    assert ListsRewrites(ends[last], disks(0 + last));
    LastListsNone(ends[last], disks(last));
  }

  lemma LastListsNone(end: RunEnd, disk: Disk)
    requires ListsRewrites(end, disk)
    ensures end.rewrote == [] ==> RewritesNone(end, disk)
  {
    hide RewritesAt;
    forall n | n in end.checked && n in end.memory.schemas && RewritesAt(disk.loads, end.memory.schemas, n)
      ensures n in end.rewrote
    {
      assert ListsRewrite(disk.loads, end.memory.schemas, end.checked, end.rewrote, n);
    }
  }

  lemma FirstIsSound(m: Memory, changed: Changes, disks: nat -> Disk)
    requires CanSettle(m.services, changed, disks)
    ensures disks(0).Sound()
    ensures changed.Only? && m.services != [] ==> Tree(m.services, disks(0).loads).Valid()
  {
  }

  // A watch

  lemma LookStaysTidy(m: Memory, at: Place, changed: Changes, disks: nat -> Disk)
    requires CanSettle(m.services, changed, disks) && AreTidy(m.results)
    ensures AreTidy(AfterSettled(m, at, changed, disks).results)
  {
    hide CanSettle, Runs, AreTidy, RewritesAt, ListsRewrites;
    SettledRunEnds(m, at, changed, disks);
  }

  /** However long it watches, what a checker keeps of a service are that service's findings, each once. */
  lemma {:induction false} LooksStayTidy(m: Memory, at: Place, seen: WatchFiles.Snapshot, looks: seq<Look>)
    requires CanFollowAll(m, at, seen, looks) && AreTidy(m.results)
    ensures AreTidy(AfterLooks(m, at, seen, looks).results)
    decreases |looks|
  {
    hide CanFollow, AfterSettled, AreTidy, CanSettle;
    if looks != [] {
      if WatchFiles.Differences(seen, looks[0].files) != {} {
        CanFollowSettles(m, seen, looks[0]);
        LookStaysTidy(m, at, Told(m.services, seen, looks[0]), looks[0].disks);
      }
      LooksStayTidy(AfterLook(m, at, seen, looks[0]), at, looks[0].files, looks[1..]);
    }
  }

  lemma CanFollowSettles(m: Memory, seen: WatchFiles.Snapshot, look: Look)
    requires CanFollow(m.services, seen, look) && WatchFiles.Differences(seen, look.files) != {}
    ensures CanSettle(m.services, Told(m.services, seen, look), look.disks)
  {
  }
}
