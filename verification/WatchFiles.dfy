/** Which services the files that changed between two looks at the disk belong to. */
module WatchFiles {
  import opened CheckTypes
  import opened CheckProofs
  import opened CheckEngine
  import opened Order
  import opened Text

  /** What a snapshot records of each file: its size and when it was modified. */
  datatype Stamp = Stamp(modified: int, size: int)

  type Snapshot = map<string, Stamp>

  predicate Differs(before: Snapshot, after: Snapshot, file: string) {
    (file in before) != (file in after) || (file in before && file in after && before[file] != after[file])
  }

  ghost function Differences(before: Snapshot, after: Snapshot): set<string> {
    set f | f in before.Keys + after.Keys && Differs(before, after, f)
  }

  /** The names whose stamps differ, in order; a missing stamp differs from any. */
  method ChangedFiles(before: Snapshot, after: Snapshot) returns (changed: seq<string>)
    ensures changed == SortedNames(Differences(before, after))
  {
    var added := AddedOrChanged(before, after);
    var removed := Removed(before, after);
    assert added + removed == Differences(before, after);
    changed := SortNames(added + removed);
  }

  method AddedOrChanged(before: Snapshot, after: Snapshot) returns (found: set<string>)
    ensures found == set f | f in after && Differs(before, after, f)
  {
    found := {};
    var left := after.Keys;
    while left != {}
      invariant left <= after.Keys
      invariant forall f :: f in found <==> f in after.Keys - left && Differs(before, after, f)
      decreases |left|
    {
      var file :| file in left;
      left := left - {file};
      if file !in before || before[file] != after[file] {
        found := found + {file};
      }
    }
  }

  method Removed(before: Snapshot, after: Snapshot) returns (found: set<string>)
    ensures found == before.Keys - after.Keys
  {
    found := {};
    var left := before.Keys;
    while left != {}
      invariant left <= before.Keys
      invariant forall f :: f in found <==> f in before.Keys - left && f !in after
      decreases |left|
    {
      var file :| file in left;
      left := left - {file};
      if file !in after {
        found := found + {file};
      }
    }
  }

  function Base(file: string): string {
    if file == [] then [] else
      var rest := Base(file[..|file| - 1]);
      if file[|file| - 1] == '/' then [] else rest + [file[|file| - 1]]
  }

  /** A config file: of a service, a package or its compiler. */
  predicate IsConfig(file: string) {
    "schema.config." <= Base(file) || Base(file) == "package.json" || Base(file) == "tsconfig.json"
  }

  /** Whether an edit of a file discovers everything again. */
  predicate ChangesEverything(services: seq<Service>, file: string) {
    IsConfig(file) || OwnerOf(services, file) == ""
  }

  function OwnersOf(services: seq<Service>, files: seq<string>): set<string> {
    set f | f in files :: OwnerOf(services, f)
  }

  /** The owners of some files, each once, in the order they first appear. */
  function OwnersInOrder(services: seq<Service>, files: seq<string>): seq<string> {
    if files == [] then []
    else
      var rest := OwnersInOrder(services, files[..|files| - 1]);
      var owner := OwnerOf(services, files[|files| - 1]);
      if owner in rest then rest else rest + [owner]
  }

  /** What a run is told of changed files: the services they belong to, or to check everything. */
  ghost function FilesChange(services: seq<Service>, files: seq<string>): Changes {
    if files == [] || exists f :: f in files && ChangesEverything(services, f) then Everything
    else Only(OwnersInOrder(services, files))
  }

  lemma {:induction false} OwnersAreDistinct(services: seq<Service>, files: seq<string>)
    ensures Distinct(OwnersInOrder(services, files))
    ensures forall n :: n in OwnersInOrder(services, files) <==> n in OwnersOf(services, files)
  {
    if files != [] {
      OwnersAreDistinct(services, files[..|files| - 1]);
      assert files == files[..|files| - 1] + [files[|files| - 1]];
    }
  }

  /** The owners of some files, each once, or everything. A list of no services is
      everything too, though a watch asks only about files that changed. */
  method ServicesOf(services: seq<Service>, files: seq<string>) returns (changed: Changes)
    ensures changed == FilesChange(services, files)
    ensures changed.Only? ==> Distinct(changed.names) && forall n ::
      n in changed.names <==> n in OwnersOf(services, files)
  {
    var names: seq<string> := [];
    for i := 0 to |files|
      invariant names == OwnersInOrder(services, files[..i]) && (names == [] <==> i == 0)
      invariant forall f | f in files[..i] :: !ChangesEverything(services, f)
    {
      assert files[..i + 1][..i] == files[..i] && files[..i + 1] == files[..i] + [files[i]];
      if ChangesEverything(services, files[i]) {
        return Everything;
      }
      var owner := OwnerOf(services, files[i]);
      if owner !in names {
        names := names + [owner];
      }
    }
    assert files[..|files|] == files;
    OwnersAreDistinct(services, files);
    changed := if names == [] then Everything else Only(names);
  }

  lemma {:induction false} BaseIsAfterLast(file: string)
    ensures Base(file) == AfterLast(file, '/')
  {
    AfterLastIsLastPart(file, '/');
    BaseIsLastPart(file);
  }

  lemma {:induction false} BaseIsLastPart(file: string)
    ensures IsLastPart(Base(file), file, '/')
  {
    if file != "" {
      var front := file[..|file| - 1];
      BaseIsLastPart(front);
      if file[|file| - 1] != '/' {
        assert file[|file| - |Base(file)|..] == front[|front| - |Base(front)|..] + [file[|file| - 1]];
      }
    }
  }

  /** A config file is named by what follows the last slash. */
  lemma ConfigsAreNamed(file: string, name: string)
    requires IsLastPart(name, file, '/')
    ensures IsConfig(file) <==> name in {"package.json", "tsconfig.json"} || "schema.config." <= name
  {
    AfterLastIsLastPart(file, '/');
    BaseIsAfterLast(file);
  }

  /** Whether some file of an owner comes before every file of another. */
  ghost predicate HasEarlierFile(services: seq<Service>, files: seq<string>, a: string, b: string) {
    exists k ::
      && 0 <= k < |files| && OwnerOf(services, files[k]) == a
      && forall l | 0 <= l < |files| && OwnerOf(services, files[l]) == b :: k < l
  }

  lemma LaterStays(services: seq<Service>, files: seq<string>, f: string, a: string, b: string)
    requires HasEarlierFile(services, files, a, b)
    ensures HasEarlierFile(services, files + [f], a, b)
  {
    hide OwnerOf;
    var k :| 0 <= k < |files| && OwnerOf(services, files[k]) == a
      && forall l | 0 <= l < |files| && OwnerOf(services, files[l]) == b :: k < l;
    assert (files + [f])[k] == files[k];
  }

  lemma NewIsLater(services: seq<Service>, files: seq<string>, f: string, a: string)
    requires a in OwnersOf(services, files) && OwnerOf(services, f) !in OwnersOf(services, files)
    ensures HasEarlierFile(services, files + [f], a, OwnerOf(services, f))
  {
    hide OwnerOf;
    var g :| g in files && OwnerOf(services, g) == a;
    var k :| 0 <= k < |files| && files[k] == g;
    assert (files + [f])[k] == g;
    forall l | 0 <= l < |files| ensures OwnerOf(services, files[l]) in OwnersOf(services, files) {
      assert files[l] in files;
    }
  }

  /** Of two owners, the one with the earlier file comes first. */
  lemma {:induction false} OwnersComeInOrder(services: seq<Service>, files: seq<string>, i: int, j: int)
    requires 0 <= i < j < |OwnersInOrder(services, files)|
    ensures HasEarlierFile(services, files, OwnersInOrder(services, files)[i], OwnersInOrder(services, files)[j])
    decreases |files|
  {
    hide OwnerOf, OwnersOf, HasEarlierFile;
    var front, last := files[..|files| - 1], files[|files| - 1];
    var before, owners := OwnersInOrder(services, front), OwnersInOrder(services, files);
    assert files == front + [last];
    if j < |before| {
      OwnersComeInOrder(services, front, i, j);
      LaterStays(services, front, last, owners[i], owners[j]);
    } else {
      OwnersAreDistinct(services, front);
      assert before[i] in before;
      NewIsLater(services, front, last, owners[i]);
    }
  }

  /** A file differs unless both looks have it with one stamp, or neither has it. */
  lemma DiffersUnlessSame(before: Snapshot, after: Snapshot, file: string)
    ensures file in Differences(before, after) <==>
      !((file in before && file in after && before[file].modified == after[file].modified
         && before[file].size == after[file].size)
        || (file !in before && file !in after))
  {
  }

  /** An edit is of everything when it is of no file, of a config, or of a file in no service's directory. */
  lemma EverythingWhen(services: seq<Service>, files: seq<string>)
    requires forall s | s in services :: s.name != ""
    ensures FilesChange(services, files).Everything? <==>
      |files| == 0 || exists f :: f in files && (IsConfig(f) || forall s | s in services :: !HoldsFile(s, f))
  {
    hide IsConfig, HoldsFile;
    forall f ensures OwnerOf(services, f) == "" <==> forall s | s in services :: !HoldsFile(s, f) {
      OwnerIsFirst(services, f);
    }
  }
}
