/** What a watch keeps: after every look the checker is right for what is on disk. */
module WatchTheorems {
  import opened CheckTypes
  import opened CheckTheorems
  import opened CheckBlame
  import opened CheckEngine
  import opened CheckReport
  import opened LeastLoads
  import opened BuildPlan
  import opened Order
  import opened WatchFiles
  import opened WatchRuns
  import opened Watch

  /** Whether an edited file belongs to a service, or to one it depends on: by its config, or by what its
      decorator arguments name. */
  ghost predicate FileAffects(before: Disk, seen: Snapshot, now: Snapshot, n: string) {
    exists f :: Differs(seen, now, f) && Affected(FoundOn(before), NamedOn(before), [OwnerOf(FoundOn(before), f)], n)
  }

  /** What a disk and the files on it have to do with each other: unless a file that changes everything was
      edited, the same services are discovered, and a load changes only when an edited file affects it. */
  ghost predicate FollowsFiles(seen: Snapshot, now: Snapshot, before: Disk, after: Disk) {
    (forall f | Differs(seen, now, f) :: !ChangesEverything(FoundOn(before), f)) ==>
      && after.discovery == before.discovery
      && forall n | n in after.loads && !FileAffects(before, seen, now, n) ::
           n in before.loads && after.loads[n] == before.loads[n]
  }

  /** The answer of `ServicesOf` to the files that differ names every service whose files they are, so that a
      disk that follows the files is left by a sound edit of those. */
  lemma FileEditIsSound(seen: Snapshot, now: Snapshot, before: Disk, after: Disk)
    requires IsSound(after) && FollowsFiles(seen, now, before, after) && Differences(seen, now) != {}
    ensures SoundEdit(before, Edit(after, FilesChange(FoundOn(before), SortedNames(Differences(seen, now)))))
  {
    hide IsSound, Affected, ChangesEverything, OwnersInOrder, SortedNames;
    var services, files := FoundOn(before), SortedNames(Differences(seen, now));
    OwnersAreDistinct(services, files);
    assert forall f :: f in files <==> Differs(seen, now, f);
    forall n | FileAffects(before, seen, now, n)
      ensures Affected(services, NamedOn(before), OwnersInOrder(services, files), n)
    {
      var f :| Differs(seen, now, f) && Affected(services, NamedOn(before), [OwnerOf(services, f)], n);
      MoreNamesAffectMore(services, NamedOn(before), [OwnerOf(services, f)], OwnersInOrder(services, files), n);
    }
  }

  lemma MoreNamesAffectMore(services: seq<Service>, also: Edges, less: seq<string>, more: seq<string>,
      n: string)
    requires forall m | m in less :: m in more
    requires Affected(services, also, less, n)
    ensures Affected(services, also, more, n)
  {
  }

  /** What a look finds follows from the files it sees, and each disk after it from the sentinels written;
      and the runs after it find out what those edits can change. */
  ghost predicate SoundLook(m: Memory, at: Place, seen: Snapshot, before: Disk, look: Look) {
    && CanFollow(m.services, seen, look)
    && IsSound(look.disks(0)) && FollowsFiles(seen, look.files, before, look.disks(0))
    && (Differences(seen, look.files) != {} ==>
          var changed := Told(m.services, seen, look);
          && IsFollowed(m, at, before, changed)
          && SentinelsAreSound(FirstRun(m, at, changed, look.disks), at, look.disks))
  }

  /** Each run of a settled run finds what the sentinels the one before rewrote can have changed. */
  ghost predicate SentinelsAreSound(first: RunEnd, at: Place, disks: nat -> Disk)
    requires CanRunOn(first.memory.services, disks) && (first.memory.services == [] ==> first.rewrote == [])
  {
    assert disks(0).Sound();
    first.memory.services == FoundOn(disks(0)) ==>
      SoundEdits(first.memory, at, disks(0), SentinelEdits(first, at, disks, 1))
  }

  /** The disk the last run after a look finds, or the look itself when no run follows it. */
  ghost function DiskAfterLook(m: Memory, at: Place, seen: Snapshot, look: Look): Disk
    requires CanFollow(m.services, seen, look)
  {
    if Differences(seen, look.files) == {} then look.disks(0)
    else DiskAfter(look.disks(0), EditsOf(m, at, Told(m.services, seen, look), look.disks))
  }

  lemma NoEditNoChange(seen: Snapshot, now: Snapshot, before: Disk, after: Disk)
    requires before.Sound() && IsSound(after) && FollowsFiles(seen, now, before, after) && Differences(seen, now) == {}
    ensures after.discovery == before.discovery
    ensures after.discovery.Found? ==> TreeOn(after) == TreeOn(before)
  {
    hide Affected, ChangesEverything, Tree.RefusalsAreExplained, Tree.ReadsAreEdges;
    assert forall f :: Differs(seen, now, f) ==> f in Differences(seen, now);
    if after.discovery.Found? {
      assert after.loads.Keys == before.loads.Keys;
      assert forall n | n in after.loads ::
        !FileAffects(before, seen, now, n) && after.loads[n] == before.loads[n];
    }
  }

  lemma LookIsEdits(m: Memory, at: Place, seen: Snapshot, before: Disk, look: Look)
    requires before.Sound() && m.services == FoundOn(before) && SoundLook(m, at, seen, before, look)
    requires Differences(seen, look.files) != {}
    ensures var edits := EditsOf(m, at, Told(m.services, seen, look), look.disks);
      SoundEdits(m, at, before, edits) && AfterLook(m, at, seen, look) == AfterEdits(m, at, before, edits)
  {
    hide IsSound, FollowsFiles, SoundEdit, FilesChange, CanSettle, AfterSettled, AfterEdits, SentinelEdits, IsFollowed;
    var changed := Told(m.services, seen, look);
    FileEditIsSound(seen, look.files, before, look.disks(0));
    SettledIsSound(m, at, before, changed, look.disks);
    RunsFollowEdits(m, at, before, changed, look.disks);
  }

  lemma SettledIsSound(m: Memory, at: Place, before: Disk, changed: Changes, disks: nat -> Disk)
    requires CanSettle(m.services, changed, disks) && m.services == FoundOn(before) && before.Sound()
    requires SoundEdit(before, Edit(disks(0), changed)) && IsFollowed(m, at, before, changed)
    requires SentinelsAreSound(FirstRun(m, at, changed, disks), at, disks)
    ensures SoundEdits(m, at, before, EditsOf(m, at, changed, disks))
  {
    hide AfterRun, SoundEdit, CanRunOn, IsFollowed, SentinelEdits;
    var first, e := FirstRun(m, at, changed, disks), Edit(disks(0), changed);
    var rest := SentinelEdits(first, at, disks, 1);
    EditIsSound(before, e);
    assert first == Watched(m, at, before, e);
    assert EditsOf(m, at, changed, disks) == [e] + rest && ([e] + rest)[1..] == rest;
  }

  /** A look leaves the checker right for the disk it or the last run after it finds. */
  lemma LookStaysUpToDate(m: Memory, at: Place, seen: Snapshot, before: Disk, look: Look)
    requires before.Sound() && UpToDate(m, at, before) && SoundLook(m, at, seen, before, look)
    ensures IsSound(DiskAfterLook(m, at, seen, look))
    ensures UpToDate(AfterLook(m, at, seen, look), at, DiskAfterLook(m, at, seen, look))
  {
    hide SettledOn, Consistent, ScopeOf, SoundEdits, AfterEdits, EditsOf, FilesChange, IsSound;
    if Differences(seen, look.files) == {} {
      NoEditNoChange(seen, look.files, before, look.disks(0));
      NoneInScope(at);
    } else {
      LookIsEdits(m, at, seen, before, look);
      var edits := EditsOf(m, at, Told(m.services, seen, look), look.disks);
      WatchStaysUpToDate(m, at, before, edits);
      DiskAfterIsSound(m, at, before, edits);
    }
  }

  lemma {:induction false} DiskAfterIsSound(m: Memory, at: Place, before: Disk, edits: seq<Edit>)
    requires m.services == FoundOn(before) && before.Sound() && edits != [] && SoundEdits(m, at, before, edits)
    ensures IsSound(DiskAfter(before, edits))
    decreases |edits|
  {
    hide IsSound, Watched, IsFollowed;
    if |edits| > 1 {
      EditIsSound(before, edits[0]);
      DiskAfterIsSound(Watched(m, at, before, edits[0]).memory, at, edits[0].disk, edits[1..]);
    }
  }

  /** And accountable for its failures, where findings are near on every disk its runs find. */
  lemma LookStaysAccounted(m: Memory, at: Place, seen: Snapshot, before: Disk, look: Look)
    requires IsSound(before) && UpToDate(m, at, before) && SoundLook(m, at, seen, before, look)
    requires AccountedFor(m, at, before) && forall i: nat :: FindsNearby(look.disks(i), at)
    ensures AccountedFor(AfterLook(m, at, seen, look), at, DiskAfterLook(m, at, seen, look))
  {
    hide SettledOn, Consistent, ScopeOf, SoundEdits, AfterEdits, EditsOf, FilesChange, FindsNearby, AccountedFor;
    hide Findings, Tree.RefusalsAreExplained, Tree.ReadsAreEdges, Tree.NamesAreRecorded;
    if Differences(seen, look.files) == {} {
      NoEditNoChange(seen, look.files, before, look.disks(0));
      SameLoadsAccount(m, at, before, look.disks(0));
    } else {
      LookIsEdits(m, at, seen, before, look);
      var changed := Told(m.services, seen, look);
      EditsFind(m, at, changed, look.disks);
      WatchStaysAccounted(m, at, before, EditsOf(m, at, changed, look.disks));
    }
  }

  lemma SameLoadsAccount(m: Memory, at: Place, before: Disk, after: Disk)
    requires m.services == FoundOn(before) && AccountedFor(m, at, before)
    requires after.discovery == before.discovery && (after.discovery.Found? ==> TreeOn(after) == TreeOn(before))
    ensures AccountedFor(m, at, after)
  {
    hide Accounted, ScopeOf;
    if after.discovery.Found? {
      assert after.loads == before.loads;
      assert NearOn(after, at) == NearOn(before, at) by { SameLoadsNameAlike(before, after); }
    } else {
      NothingInScope(m, at, after);
    }
  }

  lemma SameLoadsNameAlike(before: Disk, after: Disk)
    requires after.loads == before.loads
    ensures NamedOn(after) == NamedOn(before)
  {
  }

  lemma NothingInScope(m: Memory, at: Place, disk: Disk)
    requires m.services == []
    ensures AccountedFor(m, at, disk)
  {
  }

  lemma EditsFind(m: Memory, at: Place, changed: Changes, disks: nat -> Disk)
    requires CanSettle(m.services, changed, disks) && forall i: nat :: FindsNearby(disks(i), at)
    ensures forall e | e in EditsOf(m, at, changed, disks) :: FindsNearby(e.disk, at)
  {
    hide FindsNearby, CanRunOn, AfterRun;
    SentinelsFind(FirstRun(m, at, changed, disks), at, disks, 1);
  }

  lemma {:induction false} SentinelsFind(end: RunEnd, at: Place, disks: nat -> Disk, i: nat)
    requires CanRunOn(end.memory.services, disks) && (end.memory.services == [] ==> end.rewrote == [])
    requires forall j: nat :: FindsNearby(disks(j), at)
    ensures forall e | e in SentinelEdits(end, at, disks, i) :: FindsNearby(e.disk, at)
    decreases SETTLED_RUNS - i
  {
    hide FindsNearby, CanRunOn, AfterRun;
    if i < SETTLED_RUNS && end.rewrote != [] {
      SentinelsFind(NextRun(end, at, disks, i), at, disks, i + 1);
    }
  }

  // Any number of looks

  ghost predicate SoundLooks(m: Memory, at: Place, seen: Snapshot, before: Disk, looks: seq<Look>)
    decreases |looks|
  {
    looks != [] ==>
      var look := looks[0];
      && SoundLook(m, at, seen, before, look)
      && SoundLooks(AfterLook(m, at, seen, look), at, look.files,
           DiskAfterLook(m, at, seen, look), looks[1..])
  }

  lemma {:induction false} SoundLooksCanBeFollowed(m: Memory, at: Place, seen: Snapshot, before: Disk,
      looks: seq<Look>)
    requires SoundLooks(m, at, seen, before, looks)
    ensures CanFollowAll(m, at, seen, looks)
    decreases |looks|
  {
    hide CanFollow, AfterLook;
    if looks != [] {
      var look := looks[0];
      assert SoundLook(m, at, seen, before, look);
      SoundLooksCanBeFollowed(AfterLook(m, at, seen, look), at, look.files,
        DiskAfterLook(m, at, seen, look), looks[1..]);
    }
  }

  /** The disk after the last look and its runs. */
  ghost function DiskAfterLooks(m: Memory, at: Place, seen: Snapshot, before: Disk, looks: seq<Look>): Disk
    requires CanFollowAll(m, at, seen, looks)
    decreases |looks|
  {
    if looks == [] then before
    else
      var look := looks[0];
      DiskAfterLooks(AfterLook(m, at, seen, look), at, look.files,
        DiskAfterLook(m, at, seen, look), looks[1..])
  }

  /** Any number of looks leaves the checker right for the disk the last of them, or of its runs, finds. */
  lemma {:induction false} LooksStayUpToDate(m: Memory, at: Place, seen: Snapshot, before: Disk, looks: seq<Look>)
    requires IsSound(before) && UpToDate(m, at, before)
    requires SoundLooks(m, at, seen, before, looks) && CanFollowAll(m, at, seen, looks)
    ensures UpToDate(AfterLooks(m, at, seen, looks), at, DiskAfterLooks(m, at, seen, before, looks))
    ensures IsSound(DiskAfterLooks(m, at, seen, before, looks))
    decreases |looks|
  {
    hide UpToDate, SoundLook, CanFollow, AfterLook, DiskAfterLook;
    if looks != [] {
      var look := looks[0];
      LookStaysUpToDate(m, at, seen, before, look);
      LooksStayUpToDate(AfterLook(m, at, seen, look), at, look.files, DiskAfterLook(m, at, seen, look),
        looks[1..]);
    }
  }

  lemma {:induction false} LooksStayAccounted(m: Memory, at: Place, seen: Snapshot, before: Disk, looks: seq<Look>)
    requires IsSound(before) && UpToDate(m, at, before) && AccountedFor(m, at, before)
    requires SoundLooks(m, at, seen, before, looks) && CanFollowAll(m, at, seen, looks)
    requires forall look, i: nat | look in looks :: FindsNearby(look.disks(i), at)
    ensures AccountedFor(AfterLooks(m, at, seen, looks), at, DiskAfterLooks(m, at, seen, before, looks))
    decreases |looks|
  {
    hide UpToDate, SoundLook, CanFollow, AfterLook, DiskAfterLook, AccountedFor, FindsNearby;
    if looks != [] {
      var look := looks[0];
      LookStaysUpToDate(m, at, seen, before, look);
      LookStaysAccounted(m, at, seen, before, look);
      LooksStayAccounted(AfterLook(m, at, seen, look), at, look.files, DiskAfterLook(m, at, seen, look), looks[1..]);
    }
  }

  // What a watch says

  lemma {:induction false} RunsTell(end: RunEnd, at: Place, disks: nat -> Disk, i: nat)
    requires CanRunOn(end.memory.services, disks) && (end.memory.services == [] ==> end.rewrote == [])
    requires Tells(end.memory, at) && forall j: nat :: IsSound(disks(j))
    ensures var ends := [end] + RunsFrom(end, at, disks, i); Tells(ends[|ends| - 1].memory, at)
    decreases SETTLED_RUNS - i
  {
    hide AfterRun, Tells, IsSound, Tree.Valid;
    if i < SETTLED_RUNS && end.rewrote != [] {
      var next := NextRun(end, at, disks, i);
      assert disks(i).Sound();
      RunTells(end.memory, at, Only(end.rewrote), disks(i));
      assert RunsFrom(end, at, disks, i) == [next] + RunsFrom(next, at, disks, i + 1);
      RunsTell(next, at, disks, i + 1);
    }
  }

  /** A settled run that ends with nothing to answer for says why. */
  lemma SettledTells(m: Memory, at: Place, changed: Changes, disks: nat -> Disk)
    requires CanSettle(m.services, changed, disks) && forall i: nat :: IsSound(disks(i))
    ensures Tells(AfterSettled(m, at, changed, disks), at)
  {
    hide AfterRun, Tells, IsSound;
    assert disks(0).Sound();
    RunTells(m, at, changed, disks(0));
    RunsTell(FirstRun(m, at, changed, disks), at, disks, 1);
  }

  lemma {:induction false} LooksTell(m: Memory, at: Place, seen: Snapshot, looks: seq<Look>)
    requires CanFollowAll(m, at, seen, looks) && Tells(m, at)
    requires forall look, i: nat | look in looks :: IsSound(look.disks(i))
    ensures Tells(AfterLooks(m, at, seen, looks), at)
    decreases |looks|
  {
    hide Tells, CanSettle, AfterSettled, IsSound, Differences, Told;
    if looks != [] {
      var look := looks[0];
      if Differences(seen, look.files) != {} {
        SettledTells(m, at, Told(m.services, seen, look), look.disks);
      }
      LooksTell(AfterLook(m, at, seen, look), at, look.files, looks[1..]);
    }
  }

  // From a watch's start

  /** The disk the last run of the first check finds. */
  ghost function FirstDisk(at: Place, first: Look): Disk
    requires CanSettle([], Everything, first.disks)
  {
    DiskAfter(NO_DISK, EditsOf(NOTHING, at, Everything, first.disks))
  }

  /** A watch from nothing: its first check finds what `first` does, and each look what follows from files,
      such that the runs after it find out what changed. */
  ghost predicate SoundWatch(at: Place, first: Look, looks: seq<Look>) {
    && CanSettle([], Everything, first.disks)
    && SoundEdits(NOTHING, at, NO_DISK, EditsOf(NOTHING, at, Everything, first.disks))
    && SoundLooks(AfterSettled(NOTHING, at, Everything, first.disks), at, first.files, FirstDisk(at, first), looks)
  }

  lemma FirstRunIsRight(at: Place, first: Look)
    requires CanSettle([], Everything, first.disks)
    requires SoundEdits(NOTHING, at, NO_DISK, EditsOf(NOTHING, at, Everything, first.disks))
    ensures UpToDate(AfterSettled(NOTHING, at, Everything, first.disks), at, FirstDisk(at, first))
    ensures IsSound(FirstDisk(at, first))
  {
    hide SettledOn, Consistent, SoundEdits, EditsOf, AfterEdits, AfterSettled, IsSound, DiskAfter;
    NothingIsUpToDate(at);
    RunsFollowEdits(NOTHING, at, NO_DISK, Everything, first.disks);
    WatchStaysUpToDate(NOTHING, at, NO_DISK, EditsOf(NOTHING, at, Everything, first.disks));
    DiskAfterIsSound(NOTHING, at, NO_DISK, EditsOf(NOTHING, at, Everything, first.disks));
  }

  lemma FirstRunAccounts(at: Place, first: Look)
    requires CanSettle([], Everything, first.disks) && forall i: nat :: FindsNearby(first.disks(i), at)
    requires SoundEdits(NOTHING, at, NO_DISK, EditsOf(NOTHING, at, Everything, first.disks))
    ensures AccountedFor(AfterSettled(NOTHING, at, Everything, first.disks), at, FirstDisk(at, first))
  {
    hide SettledOn, Consistent, SoundEdits, EditsOf, AfterEdits, AfterSettled, FindsNearby, AccountedFor;
    NothingIsUpToDate(at);
    EditsFind(NOTHING, at, Everything, first.disks);
    RunsFollowEdits(NOTHING, at, NO_DISK, Everything, first.disks);
    WatchStaysAccounted(NOTHING, at, NO_DISK, EditsOf(NOTHING, at, Everything, first.disks));
  }

  /** What the checker holds at the end of a watch from nothing. */
  ghost function WatchHolds(at: Place, first: Look, looks: seq<Look>): Memory
    requires SoundWatch(at, first, looks)
  {
    var m := AfterSettled(NOTHING, at, Everything, first.disks);
    SoundLooksCanBeFollowed(m, at, first.files, FirstDisk(at, first), looks);
    AfterLooks(m, at, first.files, looks)
  }

  ghost function WatchFound(at: Place, first: Look, looks: seq<Look>): Disk
    requires SoundWatch(at, first, looks)
  {
    var m := AfterSettled(NOTHING, at, Everything, first.disks);
    SoundLooksCanBeFollowed(m, at, first.files, FirstDisk(at, first), looks);
    DiskAfterLooks(m, at, first.files, FirstDisk(at, first), looks)
  }

  /** After any number of looks, each of whose edits its runs find out, a watch holds the schemas and failures
      that a check from nothing of what it last found would record, of the target and what it depends on, or
      of every service. */
  lemma WatchIsRight(at: Place, first: Look, looks: seq<Look>)
    requires SoundWatch(at, first, looks)
    ensures UpToDate(WatchHolds(at, first, looks), at, WatchFound(at, first, looks))
    ensures IsSound(WatchFound(at, first, looks))
    ensures Agree(WatchHolds(at, first, looks), CheckFromNothing(at, WatchFound(at, first, looks)), at)
  {
    hide UpToDate, SoundEdits, SoundLooks, CanFollowAll, EditsOf, AfterSettled, AfterEdits, Agree, AfterRun, AfterLooks;
    hide DiskAfterLooks, Tree.RefusalsAreExplained, Tree.ReadsAreEdges, Tree.NamesAreRecorded, Findings;
    var disk := FirstDisk(at, first);
    var found := WatchFound(at, first, looks);
    FirstRunIsRight(at, first);
    var start := AfterSettled(NOTHING, at, Everything, first.disks);
    SoundLooksCanBeFollowed(start, at, first.files, disk, looks);
    LooksStayUpToDate(start, at, first.files, disk, looks);
    FromNothingIsUpToDate(at, found);
    UpToDateAgree(WatchHolds(at, first, looks), CheckFromNothing(at, found), at, found);
  }

  /** And a report of what it holds is OK only when it is of some scope and every service of that loads. */
  lemma WatchedOkMeansAllLoad(at: Place, first: Look, looks: seq<Look>, checked: seq<string>, report: Report)
    requires SoundWatch(at, first, looks)
    requires forall i: nat :: IsSound(first.disks(i)) && FindsNearby(first.disks(i), at)
    requires forall look, i: nat | look in looks :: IsSound(look.disks(i)) && FindsNearby(look.disks(i), at)
    requires var m := WatchHolds(at, first, looks);
      Reports(report, m.general, m.results, checked, ReportedScope(m.services, at))
    requires report.ok
    ensures var m := WatchHolds(at, first, looks);
      && ScopeOf(m.services, at).Some?
      && forall n | n in ScopeNames(m.services, at) :: n in Loads(TreeOn(WatchFound(at, first, looks)))
  {
    hide UpToDate, SoundEdits, SoundLooks, EditsOf, AfterSettled, AfterEdits, Reports, ScopeOf, ReportedScope, Loads;
    hide FindsNearby, AccountedFor, AfterLooks, DiskAfterLooks, CanFollowAll, Tells;
    hide Tree.RefusalsAreExplained, Tree.ReadsAreEdges, Tree.NamesAreRecorded, Findings;
    var disk, m := FirstDisk(at, first), WatchHolds(at, first, looks);
    FirstRunIsRight(at, first);
    FirstRunAccounts(at, first);
    var start := AfterSettled(NOTHING, at, Everything, first.disks);
    SettledTells(NOTHING, at, Everything, first.disks);
    SoundLooksCanBeFollowed(start, at, first.files, disk, looks);
    LooksTell(start, at, first.files, looks);
    LooksStayUpToDate(start, at, first.files, disk, looks);
    LooksStayAccounted(start, at, first.files, disk, looks);
    WatchedOkMeansLoaded(m, at, WatchFound(at, first, looks), checked, report);
  }
}
