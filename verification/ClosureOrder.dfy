/** The order of a closure, cycles and all: what it is of one root, and of one root more. */
module ClosureOrder {
  import opened Order
  import opened SchemaDeps

  ghost predicate ClosedUnderDeps(g: Packages, ids: set<string>) {
    forall u, v | u in ids && Edge(g, u, v) :: v in ids
  }

  /** The ids a walk finished since another. */
  function Since(w: Walk, w': Walk): seq<string>
    requires |w.order| <= |w'.order|
  {
    w'.order[|w.order|..]
  }

  /** A walk that ends well, and only adds ids, to those of w. */
  ghost predicate GoesOn(w: Walk, w': Walk) {
    w'.unknown.None? && w.order <= w'.order && w.seen <= w'.seen
  }

  // A walk that has a closed set behind it

  /** w' is w, with some ids met already. */
  ghost predicate IsAhead(w: Walk, w': Walk, ids: set<string>) {
    w.unknown.None? && w'.unknown.None? && w'.seen == w.seen + ids
  }

  /** And goes on as w does, but for those. */
  ghost predicate StaysAhead(w: Walk, r: Walk, w': Walk, r': Walk, ids: set<string>) {
    && GoesOn(w, r) && GoesOn(w', r') && IsAhead(r, r', ids)
    && Since(w', r') == Dropping(Since(w, r), ids)
  }

  lemma {:induction false} DroppingJoins(a: seq<string>, b: seq<string>, dropped: set<string>)
    ensures Dropping(a + b, dropped) == Dropping(a, dropped) + Dropping(b, dropped)
  {
    if b == [] {
      assert a + b == a;
    } else {
      assert (a + b)[..|a + b| - 1] == a + b[..|b| - 1];
      DroppingJoins(a, b[..|b| - 1], dropped);
    }
  }

  lemma {:induction false} DropsAll(a: seq<string>, dropped: set<string>)
    requires forall id | id in a :: id in dropped
    ensures Dropping(a, dropped) == []
  {
    if a != [] {
      DropsAll(a[..|a| - 1], dropped);
    }
  }

  lemma StaysAheadJoins(w: Walk, r: Walk, s: Walk, w': Walk, r': Walk, s': Walk, ids: set<string>)
    requires StaysAhead(w, r, w', r', ids) && StaysAhead(r, s, r', s', ids)
    ensures StaysAhead(w, s, w', s', ids)
  {
    DroppingJoins(Since(w, r), Since(r, s), ids);
    assert Since(w, s) == Since(w, r) + Since(r, s);
    assert Since(w', s') == Since(w', r') + Since(r', s');
  }

  /** Visiting from inside a closed set stays inside it. */
  lemma {:induction false} VisitStaysIn(g: Packages, w: Walk, id: string, ids: set<string>)
    requires ClosedUnderDeps(g, ids) && id in ids && w.unknown.None? && Visit(g, w, id).unknown.None?
    ensures var r := Visit(g, w, id);
      GoesOn(w, r) && r.seen <= w.seen + ids && forall x | x in Since(w, r) :: x in ids
    decreases g.Keys - w.seen, 0
  {
    if id !in w.seen && id in g {
      assert id in g.Keys - w.seen;
      forall d | d in g[id].deps ensures d in ids { assert Edge(g, id, d); }
      EachStaysIn(g, w.(seen := w.seen + {id}), g[id].deps, ids);
    }
  }

  lemma {:induction false} EachStaysIn(g: Packages, w: Walk, list: seq<string>, ids: set<string>)
    requires ClosedUnderDeps(g, ids) && (forall id | id in list :: id in ids)
    requires w.unknown.None? && VisitAll(g, w, list).unknown.None?
    ensures var r := VisitAll(g, w, list);
      GoesOn(w, r) && r.seen <= w.seen + ids && forall x | x in Since(w, r) :: x in ids
    decreases g.Keys - w.seen, 1, |list|
  {
    if list != [] {
      var w1 := Visit(g, w, list[0]);
      assert list[0] in list;
      assert g.Keys - w1.seen <= g.Keys - w.seen;
      VisitStaysIn(g, w, list[0], ids);
      EachStaysIn(g, w1, list[1..], ids);
      var r := VisitAll(g, w, list);
      assert Since(w, r) == Since(w, w1) + Since(w1, r);
    }
  }

  /** Finishing a package that is not in the set keeps the two walks so. */
  lemma FinishAhead(w: Walk, r: Walk, w': Walk, r': Walk, id: string, ids: set<string>)
    requires id !in ids && StaysAhead(w.(seen := w.seen + {id}), r, w'.(seen := w'.seen + {id}), r', ids)
    requires IsAhead(w, w', ids)
    ensures StaysAhead(w, r.(order := r.order + [id]), w', r'.(order := r'.order + [id]), ids)
  {
    hide Dropping;
    var entered, entered' := w.(seen := w.seen + {id}), w'.(seen := w'.seen + {id});
    DroppingJoins(Since(entered, r), [id], ids);
    DroppingOne(id, ids);
    assert Since(w, r.(order := r.order + [id])) == Since(entered, r) + [id];
    assert Since(w', r'.(order := r'.order + [id])) == Since(entered', r') + [id];
  }

  lemma DroppingOne(id: string, ids: set<string>)
    requires id !in ids
    ensures Dropping([id], ids) == [id]
  {
    assert [id][..0] == [];
  }

  lemma InsideAhead(g: Packages, w: Walk, w': Walk, id: string, ids: set<string>)
    requires ClosedUnderDeps(g, ids) && IsAhead(w, w', ids) && Visit(g, w, id).unknown.None? && id in ids
    ensures StaysAhead(w, Visit(g, w, id), w', w', ids)
  {
    hide Visit;
    VisitStaysIn(g, w, id, ids);
    DropsAll(Since(w, Visit(g, w, id)), ids);
    assert Since(w', w') == [];
  }

  lemma ItselfAhead(w: Walk, w': Walk, ids: set<string>)
    requires IsAhead(w, w', ids)
    ensures StaysAhead(w, w, w', w', ids)
  {
    assert Since(w, w) == [] && Since(w', w') == [];
  }

  lemma {:induction false} VisitAhead(g: Packages, w: Walk, w': Walk, id: string, ids: set<string>)
    requires ClosedUnderDeps(g, ids) && IsAhead(w, w', ids) && Visit(g, w, id).unknown.None?
    ensures StaysAhead(w, Visit(g, w, id), w', Visit(g, w', id), ids)
    decreases g.Keys - w.seen, 0
  {
    hide StaysAhead, ClosedUnderDeps;
    if id in w.seen {
      ItselfAhead(w, w', ids);
    } else if id in ids {
      InsideAhead(g, w, w', id, ids);
    } else {
      assert id in g.Keys - w.seen;
      var entered, entered' := w.(seen := w.seen + {id}), w'.(seen := w'.seen + {id});
      assert entered'.seen == entered.seen + ids;
      VisitAllAhead(g, entered, entered', g[id].deps, ids);
      FinishAhead(w, VisitAll(g, entered, g[id].deps), w', VisitAll(g, entered', g[id].deps), id, ids);
      AheadIsGood(entered, VisitAll(g, entered, g[id].deps), entered', VisitAll(g, entered', g[id].deps), ids);
    }
  }

  lemma AheadIsGood(w: Walk, r: Walk, w': Walk, r': Walk, ids: set<string>)
    requires StaysAhead(w, r, w', r', ids)
    ensures IsAhead(r, r', ids)
  {
  }

  lemma {:induction false} VisitAllAhead(g: Packages, w: Walk, w': Walk, list: seq<string>, ids: set<string>)
    requires ClosedUnderDeps(g, ids) && IsAhead(w, w', ids) && VisitAll(g, w, list).unknown.None?
    ensures StaysAhead(w, VisitAll(g, w, list), w', VisitAll(g, w', list), ids)
    decreases g.Keys - w.seen, 1, |list|
  {
    if list == [] {
      ItselfAhead(w, w', ids);
    } else {
      var r, r' := Visit(g, w, list[0]), Visit(g, w', list[0]);
      assert g.Keys - r.seen <= g.Keys - w.seen;
      VisitAhead(g, w, w', list[0], ids);
      VisitAllAhead(g, r, r', list[1..], ids);
      StaysAheadJoins(w, r, VisitAll(g, w, list), w', r', VisitAll(g, w', list), ids);
    }
  }

  // One root more

  lemma ClosureStarts(g: Packages, roots: seq<string>)
    requires ClosureOf(g, roots).Ids?
    ensures var w := VisitAll(g, NoWalk, roots);
      w.unknown.None? && w.order == ClosureOf(g, roots).order == Since(NoWalk, w) && w.seen == set id | id in w.order
  {
    RootsKeep(g, NoWalk, roots);
  }

  /** Each of two lists of roots has a closure when both together have. */
  lemma EachHasClosure(g: Packages, a: seq<string>, b: seq<string>)
    requires ClosureOf(g, a + b).Ids?
    ensures ClosureOf(g, a).Ids? && ClosureOf(g, b).Ids?
  {
    hide ClosureOf, Reaches, DependenciesFirst, SchemaDeps.Distinct;
    ClosureIsReachable(g, a + b);
    ClosureIsReachable(g, a);
    ClosureIsReachable(g, b);
    forall id | Reachable(g, a, id) || Reachable(g, b, id) ensures Reachable(g, a + b, id) {
      var root :| (root in a || root in b) && Reaches(g, root, id);
      assert root in a + b;
    }
  }

  /** The closure of some roots and one more is the closure of those, then of that one what is not in it yet, in
      the order of its own closure. */
  lemma ClosureOfOneMore(g: Packages, roots: seq<string>, root: string)
    requires ClosureOf(g, roots + [root]).Ids?
    ensures var first, last := ClosureOf(g, roots), ClosureOf(g, [root]);
      && first.Ids? && last.Ids?
      && ClosureOf(g, roots + [root]).order == first.order + Dropping(last.order, set id | id in first.order)
  {
    hide VisitAll, ClosureOf, Dropping;
    EachHasClosure(g, roots, [root]);
    ClosureStarts(g, roots);
    ClosureStarts(g, [root]);
    ClosureStarts(g, roots + [root]);
    var w := VisitAll(g, NoWalk, roots);
    var ids := set id | id in w.order;
    SeenIsClosed(g, roots);
    VisitAllInSteps(g, NoWalk, roots, [root]);
    NoRoots(g, NoWalk);
    VisitAllAhead(g, NoWalk, w, [root], ids);
    var r := VisitAll(g, w, [root]);
    assert r.order == w.order + Since(w, r);
  }

  lemma NoRoots(g: Packages, w: Walk)
    ensures VisitAll(g, w, []) == w
  {
  }

  lemma SeenIsClosed(g: Packages, roots: seq<string>)
    requires ClosureOf(g, roots).Ids?
    ensures ClosedUnderDeps(g, VisitAll(g, NoWalk, roots).seen)
  {
    RootsKeep(g, NoWalk, roots);
  }

  // One root

  /** A package's dependencies do not matter to a walk that has met it. */
  lemma {:induction false} VisitWithout(g: Packages, g': Packages, w: Walk, met: string, id: string)
    requires met in g && met in w.seen && g'.Keys == g.Keys && forall x | x in g && x != met :: g'[x] == g[x]
    ensures Visit(g', w, id) == Visit(g, w, id)
    decreases g.Keys - w.seen, 0
  {
    if id !in w.seen && id in g {
      assert id in g.Keys - w.seen;
      VisitAllWithout(g, g', w.(seen := w.seen + {id}), met, g[id].deps);
    }
  }

  lemma {:induction false} VisitAllWithout(g: Packages, g': Packages, w: Walk, met: string, list: seq<string>)
    requires met in g && met in w.seen && g'.Keys == g.Keys && forall x | x in g && x != met :: g'[x] == g[x]
    ensures VisitAll(g', w, list) == VisitAll(g, w, list)
    decreases g.Keys - w.seen, 1, |list|
  {
    if list != [] {
      VisitWithout(g, g', w, met, list[0]);
      var w1 := Visit(g, w, list[0]);
      assert g.Keys - w1.seen <= g.Keys - w.seen;
      if w1.unknown.None? {
        VisitAllWithout(g, g', w1, met, list[1..]);
      }
    }
  }

  /** The packages, one of them without dependencies. */
  function Alone(g: Packages, id: string): Packages
    requires id in g
  {
    g[id := g[id].(deps := [])]
  }

  lemma {:induction false} ReachesAlone(g: Packages, id: string, u: string, v: string)
    requires id in g && Reaches(Alone(g, id), u, v)
    ensures Reaches(g, u, v)
  {
    var path :| Path(Alone(g, id), path) && path[0] == u && path[|path| - 1] == v;
    forall i | 0 <= i < |path| - 1 ensures Edge(g, path[i], path[i + 1]) {
      assert Edge(Alone(g, id), path[i], path[i + 1]);
    }
    assert Path(g, path);
  }

  lemma AloneHasClosure(g: Packages, id: string)
    requires id in g && ClosureOf(g, [id]).Ids?
    ensures ClosureOf(Alone(g, id), g[id].deps).Ids?
  {
    hide ClosureOf, Reaches, DependenciesFirst, SchemaDeps.Distinct;
    ClosureIsReachable(g, [id]);
    ClosureIsReachable(Alone(g, id), g[id].deps);
    forall x | Reachable(Alone(g, id), g[id].deps, x) ensures x in g {
      var d :| d in g[id].deps && Reaches(Alone(g, id), d, x);
      ReachesAlone(g, id, d, x);
      ReachesBackward(g, id, d, x);
      assert Reachable(g, [id], x);
    }
  }

  /** The closure of one package is that of its dependencies, as they are listed, itself left out of what they
      depend on; then itself. */
  lemma ClosureOfOne(g: Packages, id: string)
    requires id in g && ClosureOf(g, [id]).Ids?
    ensures var inner := ClosureOf(Alone(g, id), g[id].deps);
      inner.Ids? && ClosureOf(g, [id]).order == Dropping(inner.order, {id}) + [id]
  {
    hide VisitAll, ClosureOf, Dropping;
    AloneHasClosure(g, id);
    ClosureStarts(g, [id]);
    var g', entered := Alone(g, id), NoWalk.(seen := {id});
    ClosureStarts(g', g[id].deps);
    VisitAllAhead(g', NoWalk, entered, g[id].deps, {id});
    VisitAllWithout(g, g', entered, id, g[id].deps);
    OneRoot(g, id);
    var r := VisitAll(g, entered, g[id].deps);
    assert r.order == Since(entered, r);
  }

  lemma OneRoot(g: Packages, id: string)
    requires id in g
    ensures var w := VisitAll(g, NoWalk.(seen := {id}), g[id].deps);
      VisitAll(g, NoWalk, [id]) == if w.unknown.Some? then w else w.(order := w.order + [id])
  {
    NoRoots(g, Visit(g, NoWalk, id));
    assert NoWalk.seen + {id} == {id};
  }
}
