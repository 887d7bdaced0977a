/** The dependency graph of the generated packages, and the closure of some of them. */
module SchemaDeps {
  import opened Basics

  datatype Package = Package(id: string, language: string, deps: seq<string>)

  type Packages = map<string, Package>

  /** The packages of one language by id. Of two with one id, the later is kept. */
  function OfLanguage(packages: seq<Package>, language: string): (r: Packages)
    ensures forall id :: id in r <==> exists p :: p in packages && p.language == language && p.id == id
    ensures forall id | id in r :: r[id] in packages && r[id].language == language && r[id].id == id
  {
    if packages == [] then map[]
    else
      var last := packages[|packages| - 1];
      assert packages == packages[..|packages| - 1] + [last];
      var rest := OfLanguage(packages[..|packages| - 1], language);
      if last.language == language then rest[last.id := last] else rest
  }

  /** Of the packages of one language and id, the last is kept. */
  lemma {:induction false} LastIsKept(packages: seq<Package>, language: string, i: nat)
    requires i < |packages| && packages[i].language == language
    requires forall j | i < j < |packages| && packages[j].language == language :: packages[j].id != packages[i].id
    ensures packages[i].id in OfLanguage(packages, language)
    ensures OfLanguage(packages, language)[packages[i].id] == packages[i]
  {
    if i < |packages| - 1 {
      LastIsKept(packages[..|packages| - 1], language, i);
    }
  }

  method ByLanguage(packages: seq<Package>, language: string) returns (out: Packages)
    ensures out == OfLanguage(packages, language)
  {
    out := map[];
    for i := 0 to |packages|
      invariant out == OfLanguage(packages[..i], language)
    {
      assert packages[..i + 1][..i] == packages[..i];
      if packages[i].language == language {
        out := out[packages[i].id := packages[i]];
      }
    }
    assert packages[..|packages|] == packages;
  }

  /** The state of a walk: the ids it has met, those it has finished in order, and the unknown id that ended it. */
  datatype Walk = Walk(seen: set<string>, order: seq<string>, unknown: Option<string>)

  const NoWalk := Walk({}, [], None)

  /** Visits a package: its dependencies, then itself. */
  function Visit(g: Packages, w: Walk, id: string): (r: Walk)
    ensures w.seen <= r.seen
    decreases g.Keys - w.seen, 0
  {
    if id in w.seen then w
    else if id !in g then w.(unknown := Some(id))
    else
      assert id in g.Keys - w.seen;
      var w1 := VisitAll(g, w.(seen := w.seen + {id}), g[id].deps);
      if w1.unknown.Some? then w1 else w1.(order := w1.order + [id])
  }

  function VisitAll(g: Packages, w: Walk, ids: seq<string>): (r: Walk)
    ensures w.seen <= r.seen
    decreases g.Keys - w.seen, 1, |ids|
  {
    if ids == [] then w
    else
      var w1 := Visit(g, w, ids[0]);
      assert g.Keys - w1.seen <= g.Keys - w.seen;
      if w1.unknown.Some? then w1 else VisitAll(g, w1, ids[1..])
  }

  /** What a closure gives: the ids in order, or the unknown one that ended it. */
  datatype Closed = Ids(order: seq<string>) | Unknown(id: string)

  function ClosureOf(g: Packages, roots: seq<string>): Closed {
    var w := VisitAll(g, NoWalk, roots);
    if w.unknown.Some? then Unknown(w.unknown.value) else Ids(w.order)
  }

  // Reachability

  predicate Edge(g: Packages, u: string, v: string) {
    u in g && v in g[u].deps
  }

  ghost predicate Path(g: Packages, path: seq<string>) {
    path != [] && forall i | 0 <= i < |path| - 1 :: Edge(g, path[i], path[i + 1])
  }

  ghost predicate Reaches(g: Packages, u: string, v: string) {
    exists path :: Path(g, path) && path[0] == u && path[|path| - 1] == v
  }

  ghost predicate Reachable(g: Packages, roots: seq<string>, id: string) {
    exists root :: root in roots && Reaches(g, root, id)
  }

  lemma ReachesItself(g: Packages, u: string)
    ensures Reaches(g, u, u)
  {
    assert Path(g, [u]);
  }

  lemma ReachesOnward(g: Packages, u: string, v: string, v': string)
    requires Reaches(g, u, v) && Edge(g, v, v')
    ensures Reaches(g, u, v')
  {
    var path :| Path(g, path) && path[0] == u && path[|path| - 1] == v;
    assert Path(g, path + [v']);
    assert (path + [v'])[0] == u;
  }

  lemma ReachesBackward(g: Packages, u: string, v: string, w: string)
    requires Edge(g, u, v) && Reaches(g, v, w)
    ensures Reaches(g, u, w)
  {
    var path :| Path(g, path) && path[0] == v && path[|path| - 1] == w;
    assert Path(g, [u] + path);
    assert ([u] + path)[0] == u;
  }

  /** A set closed under edges holds all that its members reach. */
  lemma ClosedHoldsReached(g: Packages, ids: set<string>, u: string, v: string)
    requires forall a, b | a in ids && Edge(g, a, b) :: b in ids
    requires u in ids && Reaches(g, u, v)
    ensures v in ids
  {
    var path :| Path(g, path) && path[0] == u && path[|path| - 1] == v;
    for i := 1 to |path|
      invariant path[i - 1] in ids
    {
      assert Edge(g, path[i - 1], path[i]);
    }
  }

  // What a walk keeps

  ghost predicate Distinct(ids: seq<string>) {
    forall i, j | 0 <= i < j < |ids| :: ids[i] != ids[j]
  }

  /** Whether v comes before u in the order. */
  ghost predicate Precedes(order: seq<string>, v: string, u: string) {
    exists i, j | 0 <= i < j < |order| :: order[i] == v && order[j] == u
  }

  /** For every edge from a finished package, the dependency comes first or reaches it back. */
  ghost predicate DependenciesFirst(g: Packages, order: seq<string>) {
    forall u, v | u in order && Edge(g, u, v) :: Precedes(order, v, u) || Reaches(g, v, u)
  }

  /** `active` are the packages being visited: met, not finished. */
  ghost predicate Inv(g: Packages, w: Walk, active: set<string>) {
    && w.unknown.None?
    && w.seen <= g.Keys
    && Distinct(w.order)
    && (forall id :: id in w.seen <==> id in w.order || id in active)
    && (forall id | id in w.order :: id !in active)
    && (forall u, v | u in w.order && Edge(g, u, v) :: v in w.seen)
    && DependenciesFirst(g, w.order)
  }

  /** What visiting leaves: it only adds, and only what is reached; or it ends at an unknown id that is reached. */
  ghost predicate Grows(g: Packages, w: Walk, w': Walk, from: string) {
    && w.order <= w'.order
    && w.seen <= w'.seen
    && (forall id | id in w'.seen - w.seen :: Reaches(g, from, id))
    && (w'.unknown.Some? ==> w'.unknown.value !in g && Reaches(g, from, w'.unknown.value))
  }

  lemma {:induction false} VisitKeeps(g: Packages, w: Walk, id: string, active: set<string>)
    requires Inv(g, w, active)
    requires forall a | a in active :: Reaches(g, a, id)
    ensures var w' := Visit(g, w, id);
      && Grows(g, w, w', id)
      && (w'.unknown.None? ==> Inv(g, w', active) && id in w'.seen)
    decreases g.Keys - w.seen, 0
  {
    ReachesItself(g, id);
    if id !in w.seen && id in g {
      var entered := w.(seen := w.seen + {id});
      assert id in g.Keys - w.seen;
      forall d | d in g[id].deps ensures Edge(g, id, d) {}
      DependenciesKeep(g, entered, id, g[id].deps, active + {id});
      var w1 := VisitAll(g, entered, g[id].deps);
      if w1.unknown.None? {
        FinishKeeps(g, w1, id, active);
      }
    }
  }

  lemma FinishKeeps(g: Packages, w: Walk, id: string, active: set<string>)
    requires id in g && id !in active && Inv(g, w, active + {id})
    requires forall d | d in g[id].deps :: d in w.seen
    requires forall a | a in active :: Reaches(g, a, id)
    ensures Inv(g, w.(order := w.order + [id]), active)
  {
  }

  lemma {:induction false} DependenciesKeep(g: Packages, w: Walk, u: string, ids: seq<string>, active: set<string>)
    requires Inv(g, w, active)
    requires forall a | a in active :: Reaches(g, a, u)
    requires forall d | d in ids :: Edge(g, u, d)
    ensures var w' := VisitAll(g, w, ids);
      && Grows(g, w, w', u)
      && (w'.unknown.None? ==> Inv(g, w', active) && forall d | d in ids :: d in w'.seen)
    decreases g.Keys - w.seen, 1, |ids|
  {
    if ids != [] {
      var d := ids[0];
      forall a | a in active ensures Reaches(g, a, d) { ReachesOnward(g, a, u, d); }
      VisitKeeps(g, w, d, active);
      var w1 := Visit(g, w, d);
      forall id | Reaches(g, d, id) ensures Reaches(g, u, id) { ReachesBackward(g, u, d, id); }
      if w1.unknown.None? {
        assert g.Keys - w1.seen <= g.Keys - w.seen;
        DependenciesKeep(g, w1, u, ids[1..], active);
      }
    }
  }

  lemma {:induction false} RootsKeep(g: Packages, w: Walk, roots: seq<string>)
    requires Inv(g, w, {})
    ensures var w' := VisitAll(g, w, roots);
      && w.order <= w'.order && w.seen <= w'.seen
      && (forall id | id in w'.seen - w.seen :: Reachable(g, roots, id))
      && (w'.unknown.Some? ==> w'.unknown.value !in g && Reachable(g, roots, w'.unknown.value))
      && (w'.unknown.None? ==> Inv(g, w', {}) && forall root | root in roots :: root in w'.seen)
    decreases |roots|
  {
    if roots != [] {
      var w1 := Visit(g, w, roots[0]);
      VisitKeeps(g, w, roots[0], {});
      forall id | Reaches(g, roots[0], id) ensures Reachable(g, roots, id) {}
      if w1.unknown.None? {
        RootsKeep(g, w1, roots[1..]);
        forall id | Reachable(g, roots[1..], id) ensures Reachable(g, roots, id) {
          var root :| root in roots[1..] && Reaches(g, root, id);
          assert root in roots;
        }
      }
    }
  }

  // What a closure is

  /** A closure succeeds exactly when every id the roots reach is a known package; it then lists those
      ids, each once, with every dependency before its dependent unless the dependency reaches it back.
      An unknown id it names is one the roots reach. */
  lemma ClosureIsReachable(g: Packages, roots: seq<string>)
    ensures ClosureOf(g, roots).Ids? <==> forall id | Reachable(g, roots, id) :: id in g
    ensures var c := ClosureOf(g, roots);
      match c
      case Ids(order) =>
        && Distinct(order)
        && (forall id :: id in order <==> Reachable(g, roots, id))
        && DependenciesFirst(g, order)
      case Unknown(id) => id !in g && Reachable(g, roots, id)
  {
    RootsKeep(g, NoWalk, roots);
    var w := VisitAll(g, NoWalk, roots);
    if w.unknown.None? {
      forall id | Reachable(g, roots, id) ensures id in w.order {
        var root :| root in roots && Reaches(g, root, id);
        ClosedHoldsReached(g, w.seen, root, id);
      }
    }
  }

  /** Without a cycle the order is topological: every dependency strictly before its dependents. */
  lemma ClosureOfAcyclicIsTopological(g: Packages, roots: seq<string>)
    requires ClosureOf(g, roots).Ids?
    requires forall u, v | Edge(g, u, v) :: !Reaches(g, v, u)
    ensures forall u, v | u in ClosureOf(g, roots).order && Edge(g, u, v) :: Precedes(ClosureOf(g, roots).order, v, u)
  {
    ClosureIsReachable(g, roots);
  }

  /** More roots only add to the end of a closure. */
  lemma {:induction false} ClosureGrowsWithRoots(g: Packages, roots: seq<string>, more: seq<string>)
    requires ClosureOf(g, roots + more).Ids?
    ensures ClosureOf(g, roots).Ids? && ClosureOf(g, roots).order <= ClosureOf(g, roots + more).order
  {
    VisitAllInSteps(g, NoWalk, roots, more);
    RootsKeep(g, NoWalk, roots);
    var w := VisitAll(g, NoWalk, roots);
    if w.unknown.None? {
      RootsKeep(g, w, more);
    }
  }

  lemma {:induction false} VisitAllInSteps(g: Packages, w: Walk, a: seq<string>, b: seq<string>)
    ensures var w1 := VisitAll(g, w, a);
      VisitAll(g, w, a + b) == if a != [] && w1.unknown.Some? then w1 else VisitAll(g, w1, b)
    decreases |a|
  {
    if a == [] {
      assert a + b == b;
    } else {
      assert (a + b)[0] == a[0] && (a + b)[1..] == a[1..] + b;
      VisitAllInSteps(g, Visit(g, w, a[0]), a[1..], b);
    }
  }

  // The walk as the program makes it

  /** One closure's walk over the packages of a language. */
  class Walker {
    const byID: Packages
    var seen: set<string>
    var order: seq<string>

    constructor (byID: Packages)
      ensures this.byID == byID && seen == {} && order == []
    {
      this.byID, seen, order := byID, {}, [];
    }

    /** Visits a package; returns the unknown id that ends the walk, if one does. */
    method VisitPackage(id: string) returns (unknown: Option<string>)
      modifies this
      ensures Walk(seen, order, unknown) == Visit(byID, Walk(old(seen), old(order), None), id)
      decreases byID.Keys - seen, 0
    {
      if id in seen {
        return None;
      }
      if id !in byID {
        return Some(id);
      }
      assert id in byID.Keys - seen;
      seen := seen + {id};
      unknown := VisitEach(byID[id].deps);
      if unknown.None? {
        order := order + [id];
      }
    }

    method VisitEach(ids: seq<string>) returns (unknown: Option<string>)
      modifies this
      ensures Walk(seen, order, unknown) == VisitAll(byID, Walk(old(seen), old(order), None), ids)
      decreases byID.Keys - seen, 1
    {
      for i := 0 to |ids|
        invariant old(seen) <= seen
        invariant VisitAll(byID, Walk(seen, order, None), ids[i..]) == VisitAll(byID, Walk(old(seen), old(order), None), ids)
      {
        assert byID.Keys - seen <= byID.Keys - old(seen);
        assert ids[i..][0] == ids[i] && ids[i..][1..] == ids[i + 1..];
        unknown := VisitPackage(ids[i]);
        if unknown.Some? {
          return;
        }
      }
      unknown := None;
    }
  }

  /** The ids of some packages of a language and of all they depend on, dependencies first. */
  method Closure(packages: seq<Package>, language: string, roots: seq<string>) returns (c: Closed)
    ensures c == ClosureOf(OfLanguage(packages, language), roots)
  {
    var byID := ByLanguage(packages, language);
    var walker := new Walker(byID);
    var unknown := walker.VisitEach(roots);
    c := if unknown.Some? then Unknown(unknown.value) else Ids(walker.order);
  }
}
