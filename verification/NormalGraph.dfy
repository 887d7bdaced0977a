/** The normal form a dependency graph is written and read in, and the closures it keeps. */
module NormalGraph {
  import opened Order
  import opened Text
  import opened SchemaDeps

  // Dependencies

  /** The dependencies a list names: each trimmed, the empty ones left out. */
  ghost function Named(deps: seq<string>): set<string> {
    set d | d in deps && Trim(d) != "" :: Trim(d)
  }

  ghost function NormalDeps(deps: seq<string>): seq<string> {
    SortedNames(Named(deps))
  }

  method UniqueStrings(deps: seq<string>) returns (out: seq<string>)
    ensures out == NormalDeps(deps)
  {
    var seen: set<string> := {};
    for i := 0 to |deps|
      invariant seen == Named(deps[..i])
    {
      assert deps[..i + 1] == deps[..i] + [deps[i]];
      var s := Trim(deps[i]);
      if s != "" && s !in seen {
        seen := seen + {s};
      }
    }
    assert deps[..|deps|] == deps;
    out := SortNames(seen);
  }

  /** A list's normal dependencies are what is left of those in it without the spaces around them, where anything
      is; each once, in order. */
  lemma NormalDepsAreTrims(deps: seq<string>)
    ensures var out := NormalDeps(deps);
      && Sorted(out)
      && (forall d | d in out :: d != "" && exists x :: x in deps && IsTrimOf(d, x))
      && forall x | x in deps && !AllSpaces(x) :: exists d :: d in out && IsTrimOf(d, x)
  {
    forall x | x in deps ensures IsTrimOf(Trim(x), x) && (Trim(x) == "" <==> AllSpaces(x)) {
      TrimIsTrimOf(x);
      BlankIsTrimmed(x);
    }
  }

  /** Normalizing dependencies twice is normalizing them once. */
  lemma {:induction false} NormalDepsAreKept(deps: seq<string>)
    ensures NormalDeps(NormalDeps(deps)) == NormalDeps(deps)
  {
    forall d | d in NormalDeps(deps) ensures Trim(d) == d != "" {
      var d' :| d' in deps && Trim(d') == d;
      TrimIsIdempotent(d');
    }
    assert Named(NormalDeps(deps)) == Named(deps);
  }

  // Packages

  ghost function NormalPackage(p: Package): Package {
    p.(deps := NormalDeps(p.deps))
  }

  ghost function NormalPackages(packages: seq<Package>): (r: seq<Package>)
    ensures |r| == |packages| && forall i | 0 <= i < |r| :: r[i] == NormalPackage(packages[i])
  {
    if packages == [] then [] else [NormalPackage(packages[0])] + NormalPackages(packages[1..])
  }

  predicate Before(p: Package, q: Package) {
    Less(p.language, q.language) || (p.language == q.language && Less(p.id, q.id))
  }

  predicate InOrder(packages: seq<Package>) {
    forall i, j | 0 <= i < j < |packages| :: !Before(packages[j], packages[i])
  }

  /** Packages are in order by language, and those of one language by id. */
  lemma OrderIsByLanguage(packages: seq<Package>)
    ensures InOrder(packages) <==> forall i, j | 0 <= i < j < |packages| ::
      && !Less(packages[j].language, packages[i].language)
      && (packages[j].language == packages[i].language ==> !Less(packages[j].id, packages[i].id))
  {
    hide Less;
  }

  lemma BeforeIsOrder(p: Package, q: Package, r: Package)
    ensures !(Before(p, q) && Before(q, p))
    ensures Before(p, q) && !Before(r, q) ==> !Before(r, p)
  {
    LessIsTotal(p.language, q.language);
    LessIsTotal(q.language, r.language);
    LessIsTotal(p.id, q.id);
    LessIsTotal(q.id, r.id);
    LessIsTotal(p.language, r.language);
    LessIsTotal(p.id, r.id);
    if Less(p.language, q.language) && Less(q.language, r.language) {
      LessIsTransitive(p.language, q.language, r.language);
    }
    if Less(p.id, q.id) && Less(q.id, r.id) { LessIsTransitive(p.id, q.id, r.id); }
  }

  function InsertPackage(packages: seq<Package>, p: Package): (r: seq<Package>)
    requires InOrder(packages)
    ensures InOrder(r) && multiset(r) == multiset(packages) + multiset{p}
  {
    if packages == [] then [p]
    else if Before(p, packages[0]) then
      InsertFirst(packages, p);
      [p] + packages
    else
      assert packages == [packages[0]] + packages[1..];
      var rest := InsertPackage(packages[1..], p);
      InsertLater(packages, p, rest);
      [packages[0]] + rest
  }

  lemma InsertFirst(packages: seq<Package>, p: Package)
    requires InOrder(packages) && packages != [] && Before(p, packages[0])
    ensures InOrder([p] + packages)
  {
    hide Before;
    forall i | 0 <= i < |packages| ensures !Before(packages[i], p) {
      BeforeIsOrder(p, packages[0], packages[i]);
    }
  }

  lemma InsertLater(packages: seq<Package>, p: Package, rest: seq<Package>)
    requires InOrder(packages) && packages != [] && !Before(p, packages[0])
    requires InOrder(rest) && multiset(rest) == multiset(packages[1..]) + multiset{p}
    ensures InOrder([packages[0]] + rest)
  {
    hide Before;
    forall i | 0 <= i < |rest| ensures !Before(rest[i], packages[0]) {
      assert rest[i] in multiset(rest);
    }
  }

  lemma NoneInOrder()
    ensures InOrder([])
  {
  }

  /** A graph's file: its version, and its packages. */
  class Graph {
    var version: nat
    var packages: seq<Package>

    constructor (version: nat, packages: seq<Package>)
      ensures this.version == version && this.packages == packages
    {
      this.version, this.packages := version, packages;
    }

    /** Gives the graph a version, normalizes each package's dependencies and sorts the packages. */
    method Normalize()
      modifies this
      ensures version == if old(version) == 0 then 1 else old(version)
      ensures InOrder(packages) && multiset(packages) == multiset(NormalPackages(old(packages)))
    {
      hide NormalDeps, InOrder;
      if version == 0 {
        version := 1;
      }
      NoneInOrder();
      var sorted: seq<Package> := [];
      ghost var normal := NormalPackages(packages);
      for i := 0 to |packages|
        invariant packages == old(packages) && version == if old(version) == 0 then 1 else old(version)
        invariant InOrder(sorted) && multiset(sorted) == multiset(normal[..i])
      {
        var deps := UniqueStrings(packages[i].deps);
        assert normal[..i + 1] == normal[..i] + [normal[i]];
        sorted := InsertPackage(sorted, packages[i].(deps := deps));
      }
      assert normal[..|packages|] == normal;
      packages := sorted;
    }
  }

  // What normalizing keeps

  /** A graph of one language's packages, in normal form. */
  ghost function NormalOf(g: Packages): Packages {
    map id | id in g :: NormalPackage(g[id])
  }

  /** One package of a language for each of its ids. */
  ghost predicate IsPick(g: Packages, packages: seq<Package>, language: string) {
    && (forall id :: id in g <==> exists p :: p in packages && p.language == language && p.id == id)
    && (forall id | id in g :: g[id] in packages && g[id].language == language && g[id].id == id)
  }

  /** No two packages share a language and an id. */
  ghost predicate KeysDistinct(packages: seq<Package>) {
    forall p, q | p in packages && q in packages && p.language == q.language && p.id == q.id :: p == q
  }

  lemma NormalHolds(packages: seq<Package>, normal: seq<Package>, p: Package)
    requires multiset(normal) == multiset(NormalPackages(packages))
    ensures p in packages ==> NormalPackage(p) in normal
    ensures p in normal ==> exists q :: q in packages && p == NormalPackage(q)
  {
    var n := NormalPackages(packages);
    if p in packages {
      var i :| 0 <= i < |packages| && packages[i] == p;
      assert n[i] in multiset(normal);
    }
    if p in normal {
      assert p in multiset(n);
      var i :| 0 <= i < |n| && n[i] == p;
      assert packages[i] in packages;
    }
  }

  /** The package of a graph that one of its normal form comes from. */
  ghost function Origin(packages: seq<Package>, p: Package): (q: Package)
    requires exists q :: q in packages && p == NormalPackage(q)
    ensures q in packages && p == NormalPackage(q)
  {
    var q :| q in packages && p == NormalPackage(q);
    q
  }

  lemma NormalKeys(packages: seq<Package>, normal: seq<Package>, language: string)
    requires multiset(normal) == multiset(NormalPackages(packages))
    ensures forall p | p in packages && p.language == language :: p.id in OfLanguage(normal, language)
    ensures forall id | id in OfLanguage(normal, language) ::
      exists q :: q in packages && OfLanguage(normal, language)[id] == NormalPackage(q)
  {
    hide NormalDeps, NormalPackages;
    var g := OfLanguage(normal, language);
    forall p | p in packages && p.language == language ensures p.id in g {
      NormalHolds(packages, normal, p);
      assert NormalPackage(p) in normal;
    }
    forall id | id in g ensures exists q :: q in packages && g[id] == NormalPackage(q) {
      NormalHolds(packages, normal, g[id]);
    }
  }

  /** The packages of a graph that a language's packages in normal form come from. */
  ghost function Origins(packages: seq<Package>, normal: seq<Package>, language: string): Packages
    requires multiset(normal) == multiset(NormalPackages(packages))
  {
    NormalKeys(packages, normal, language);
    map id | id in OfLanguage(normal, language) :: Origin(packages, OfLanguage(normal, language)[id])
  }

  lemma OriginsAreNormal(packages: seq<Package>, normal: seq<Package>, language: string)
    requires multiset(normal) == multiset(NormalPackages(packages))
    ensures var g, g' := Origins(packages, normal, language), OfLanguage(normal, language);
      g.Keys == g'.Keys && forall id | id in g :: g[id] in packages && g'[id] == NormalPackage(g[id])
  {
    hide NormalDeps, NormalPackages, OfLanguage;
    NormalKeys(packages, normal, language);
  }

  /** The normal form's packages of a language are the normal forms of one package for each id; when no two
      packages share a language and an id, of the packages a closure reads. */
  lemma NormalIsOfPick(packages: seq<Package>, normal: seq<Package>, language: string)
    requires multiset(normal) == multiset(NormalPackages(packages))
    ensures IsPick(Origins(packages, normal, language), packages, language)
    ensures OfLanguage(normal, language) == NormalOf(Origins(packages, normal, language))
    ensures KeysDistinct(packages) ==> Origins(packages, normal, language) == OfLanguage(packages, language)
  {
    hide Origins, NormalDeps, NormalPackages, OfLanguage, KeysDistinct;
    NormalKeys(packages, normal, language);
    OriginsAreNormal(packages, normal, language);
    if KeysDistinct(packages) {
      PickIsUnique(Origins(packages, normal, language), packages, language);
    }
  }

  lemma PickIsUnique(g: Packages, packages: seq<Package>, language: string)
    requires IsPick(g, packages, language) && KeysDistinct(packages)
    ensures g == OfLanguage(packages, language)
  {
    var g' := OfLanguage(packages, language);
    assert g.Keys == g'.Keys;
    assert forall id | id in g :: g[id] == g'[id];
  }

  /** An id, as it stands. */
  predicate IsTrimmed(id: string) {
    Trim(id) == id && id != ""
  }

  /** Of a package that some roots reach, a dependency that is not trimmed is a root, and what is left of it
      when it is trimmed is reached too. */
  ghost predicate IsKept(g: Packages, roots: seq<string>, d: string) {
    IsTrimmed(d) || (d in roots && (Trim(d) != "" ==> Reachable(g, roots, Trim(d))))
  }

  ghost predicate DepsAreKept(g: Packages, roots: seq<string>) {
    forall id, d | id in g && Reachable(g, roots, id) && d in g[id].deps :: IsKept(g, roots, d)
  }

  lemma NormalDepsAreTrimmed(deps: seq<string>, d: string)
    requires d in NormalDeps(deps)
    ensures IsTrimmed(d)
  {
    var d' :| d' in deps && Trim(d') == d;
    TrimIsIdempotent(d');
  }

  lemma NormalEdge(g: Packages, u: string, v: string)
    ensures Edge(NormalOf(g), u, v) <==> u in g && exists d :: d in g[u].deps && Trim(d) == v && v != ""
  {
  }

  /** A step in normal form from what is reached leads to what is reached. */
  lemma NormalStepIsReached(g: Packages, roots: seq<string>, u: string, v: string)
    requires DepsAreKept(g, roots) && Reachable(g, roots, u) && Edge(NormalOf(g), u, v)
    ensures Reachable(g, roots, v)
  {
    hide Reachable, NormalOf, Reaches;
    NormalEdge(g, u, v);
    var d :| d in g[u].deps && Trim(d) == v && v != "";
    assert IsKept(g, roots, d);
    if IsTrimmed(d) {
      ReachableStep(g, roots, u, v);
    }
  }

  /** And a step from what is reached in normal form too leads to what is. */
  lemma StepIsReachedInNormal(g: Packages, roots: seq<string>, u: string, v: string)
    requires DepsAreKept(g, roots) && Reachable(g, roots, u) && Edge(g, u, v) && Reachable(NormalOf(g), roots, u)
    ensures Reachable(NormalOf(g), roots, v)
  {
    hide Reachable, NormalOf, Reaches;
    assert IsKept(g, roots, v);
    if IsTrimmed(v) {
      NormalEdge(g, u, v);
      ReachableStep(NormalOf(g), roots, u, v);
    } else {
      RootIsReachable(NormalOf(g), roots, v);
    }
  }

  lemma RootIsReachable(g: Packages, roots: seq<string>, id: string)
    requires id in roots
    ensures Reachable(g, roots, id)
  {
    ReachesItself(g, id);
  }

  lemma ReachableStep(g: Packages, roots: seq<string>, u: string, v: string)
    requires Reachable(g, roots, u) && Edge(g, u, v)
    ensures Reachable(g, roots, v)
  {
    var root :| root in roots && Reaches(g, root, u);
    ReachesOnward(g, root, u, v);
  }

  lemma PathIsReached(g: Packages, roots: seq<string>, path: seq<string>)
    requires DepsAreKept(g, roots) && (Path(g, path) || Path(NormalOf(g), path)) && path[0] in roots
    ensures Reachable(g, roots, path[|path| - 1])
    ensures Path(g, path) ==> Reachable(NormalOf(g), roots, path[|path| - 1])
  {
    hide Reachable, NormalOf, Edge, DepsAreKept;
    RootIsReachable(g, roots, path[0]);
    RootIsReachable(NormalOf(g), roots, path[0]);
    for i := 1 to |path|
      invariant Reachable(g, roots, path[i - 1])
      invariant Path(g, path) ==> Reachable(NormalOf(g), roots, path[i - 1])
    {
      if Path(g, path) {
        assert Edge(g, path[i - 1], path[i]);
        StepIsReachedInNormal(g, roots, path[i - 1], path[i]);
        ReachableStep(g, roots, path[i - 1], path[i]);
      } else {
        assert Edge(NormalOf(g), path[i - 1], path[i]);
        NormalStepIsReached(g, roots, path[i - 1], path[i]);
      }
    }
  }

  /** Where dependencies are kept, what is reached is what is reached in normal form. */
  lemma KeptReach(g: Packages, roots: seq<string>, id: string)
    requires DepsAreKept(g, roots)
    ensures Reachable(g, roots, id) <==> Reachable(NormalOf(g), roots, id)
  {
    hide NormalOf, Edge, DepsAreKept;
    if Reachable(g, roots, id) {
      var root :| root in roots && Reaches(g, root, id);
      var path :| Path(g, path) && path[0] == root && path[|path| - 1] == id;
      PathIsReached(g, roots, path);
    }
    if Reachable(NormalOf(g), roots, id) {
      var root :| root in roots && Reaches(NormalOf(g), root, id);
      var path :| Path(NormalOf(g), path) && path[0] == root && path[|path| - 1] == id;
      PathIsReached(g, roots, path);
    }
  }

  /** Nothing but a root is reached in normal form unless it is trimmed. */
  lemma NormalReachIsTrimmed(g: Packages, roots: seq<string>, id: string)
    requires Reachable(NormalOf(g), roots, id) && id !in roots
    ensures IsTrimmed(id)
  {
    hide NormalDeps, IsTrimmed;
    var g' := NormalOf(g);
    var root :| root in roots && Reaches(g', root, id);
    var path :| Path(g', path) && path[0] == root && path[|path| - 1] == id;
    assert |path| > 1;
    var u := path[|path| - 2];
    assert Edge(g', u, id);
    NormalDepsAreTrimmed(g[u].deps, id);
  }

  /** Whether two closures hold the same ids, or both meet an unknown one. */
  ghost predicate SameClosure(c: Closed, c': Closed) {
    (c.Ids? <==> c'.Ids?) && (c.Ids? && c'.Ids? ==> forall id :: id in c.order <==> id in c'.order)
  }

  /** A closure that succeeds is, but for order, the closure of the normal form exactly when the dependencies
      it reads are kept; one that fails fails there too when they are, and otherwise exactly when an unknown
      id is reached through trimmed dependencies. */
  lemma NormalClosures(g: Packages, roots: seq<string>)
    ensures DepsAreKept(g, roots) ==> SameClosure(ClosureOf(g, roots), ClosureOf(NormalOf(g), roots))
    ensures ClosureOf(g, roots).Ids? ==>
      (SameClosure(ClosureOf(g, roots), ClosureOf(NormalOf(g), roots)) <==> DepsAreKept(g, roots))
    ensures ClosureOf(g, roots).Unknown? ==>
      (SameClosure(ClosureOf(g, roots), ClosureOf(NormalOf(g), roots))
       <==> exists id :: Reachable(NormalOf(g), roots, id) && id !in g)
  {
    hide ClosureOf, Reachable, NormalPackage, DepsAreKept;
    var g' := NormalOf(g);
    ClosureIsReachable(g, roots);
    ClosureIsReachable(g', roots);
    if DepsAreKept(g, roots) {
      forall id ensures Reachable(g, roots, id) <==> Reachable(g', roots, id) {
        KeptReach(g, roots, id);
      }
    }
    if ClosureOf(g, roots).Ids? && SameClosure(ClosureOf(g, roots), ClosureOf(g', roots)) {
      SameReachIsKept(g, roots);
    }
  }

  /** Where trimmed ids reach what ids do, dependencies are kept. */
  lemma SameReachIsKept(g: Packages, roots: seq<string>)
    requires forall id :: Reachable(g, roots, id) <==> Reachable(NormalOf(g), roots, id)
    ensures DepsAreKept(g, roots)
  {
    hide NormalOf, Reachable;
    forall id, d | id in g && Reachable(g, roots, id) && d in g[id].deps ensures IsKept(g, roots, d) {
      assert Edge(g, id, d);
      ReachableStep(g, roots, id, d);
      if d !in roots {
        NormalReachIsTrimmed(g, roots, d);
      } else if Trim(d) != "" {
        NormalEdge(g, id, Trim(d));
        ReachableStep(NormalOf(g), roots, id, Trim(d));
      }
    }
  }

  /** A dependency on a package whose id has a space before it is lost in normal form. */
  lemma UntrimmedIsLost(a: Package, b: Package)
    requires a == Package("a", "ts", [" b"]) && b == Package(" b", "ts", [])
    ensures var g := map["a" := a, " b" := b];
      ClosureOf(g, ["a"]) == Ids([" b", "a"]) && !SameClosure(ClosureOf(g, ["a"]), ClosureOf(NormalOf(g), ["a"]))
  {
    hide NormalOf, Trim;
    var g := map["a" := a, " b" := b];
    assert " b" != "a" && " b" in g && "a" in g;
    var w0 := NoWalk.(seen := NoWalk.seen + {"a"});
    assert Visit(g, w0, " b").order == [" b"];
    assert VisitAll(g, w0, [" b"]).order == [" b"];
    assert VisitAll(g, NoWalk, ["a"]).order == [" b", "a"];
    ReachesItself(g, "a");
    assert Reachable(g, ["a"], "a") && g["a"].deps[0] == " b";
    LeadingSpaceIsTrimmed();
    assert !IsKept(g, ["a"], " b");
    NormalClosures(g, ["a"]);
  }

  lemma LeadingSpaceIsTrimmed()
    ensures !IsTrimmed(" b") && IsTrimmed("a")
  {
  }
}
