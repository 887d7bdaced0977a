/** The order in which the references of a value are found: that of the places where they first stand in it. */
module ReferenceOrder {
  import opened Order
  import opened Places
  import opened Values
  import opened ValueRefs

  /** Whether a reference stands at a place in a value. */
  predicate StandsAt(v: Value, path: Path, r: Value) {
    Leads(v, path, r) && IsLeafReference(r)
  }

  /** Whether a appears somewhere before b ever does. */
  ghost predicate AppearsBefore(v: Value, a: Value, b: Value) {
    exists path :: StandsAt(v, path, a) && forall later | StandsAt(v, later, b) :: Before(path, later)
  }

  /** The places of the references of a value, in the order they are met. */
  ghost function PlacesOf(v: Value): seq<Path>
    decreases v, 1
  {
    match v
    case Output(_, _) => [[]]
    case Parameter(_) => [[]]
    case Concat(parts) => PlacesUnder(Indices(|parts|), parts)
    case Arr(items) => PlacesUnder(Indices(|items|), items)
    case Obj(m) => PlacesInMembers(v, SortedNames(m.Keys))
    case _ => []
  }

  function Indices(n: nat): (steps: seq<Step>)
    ensures |steps| == n && forall i | 0 <= i < n :: steps[i] == Index(i)
  {
    seq(n, i requires 0 <= i => Index(i))
  }

  function Under(step: Step, paths: seq<Path>): (r: seq<Path>)
    ensures |r| == |paths| && forall i | 0 <= i < |r| :: r[i] == [step] + paths[i]
  {
    seq(|paths|, i requires 0 <= i < |paths| => [step] + paths[i])
  }

  ghost function PlacesUnder(steps: seq<Step>, vs: seq<Value>): seq<Path>
    requires |steps| == |vs|
    decreases vs, 0
  {
    if vs == [] then [] else Under(steps[0], PlacesOf(vs[0])) + PlacesUnder(steps[1..], vs[1..])
  }

  ghost function PlacesInMembers(v: Value, keys: seq<string>): seq<Path>
    requires v.Obj? && forall k | k in keys :: k in v.members
    decreases v, 0, |keys|
  {
    if keys == [] then []
    else Under(Key(keys[0]), PlacesOf(v.members[keys[0]])) + PlacesInMembers(v, keys[1..])
  }

  /** References with the places they stand at, in order, and no reference left out. */
  ghost predicate AreInOrder(v: Value, paths: seq<Path>, refs: seq<Value>) {
    && |paths| == |refs|
    && (forall i | 0 <= i < |refs| :: StandsAt(v, paths[i], refs[i]))
    && (forall i, j | 0 <= i < j < |paths| :: Before(paths[i], paths[j]))
    && forall path, r | StandsAt(v, path, r) :: path in paths
  }

  ghost predicate StandsUnder(steps: seq<Step>, vs: seq<Value>, k: int, path: Path, r: Value)
    requires |steps| == |vs|
  {
    0 <= k < |steps| && path != [] && path[0] == steps[k] && StandsAt(vs[k], path[1..], r)
  }

  ghost predicate StandsInOne(steps: seq<Step>, vs: seq<Value>, path: Path, r: Value)
    requires |steps| == |vs|
  {
    exists k :: StandsUnder(steps, vs, k, path, r)
  }

  ghost predicate AreUnder(steps: seq<Step>, vs: seq<Value>, paths: seq<Path>, refs: seq<Value>)
    requires |steps| == |vs|
  {
    && |paths| == |refs|
    && (forall i | 0 <= i < |refs| :: StandsInOne(steps, vs, paths[i], refs[i]))
    && (forall i, j | 0 <= i < j < |paths| :: Before(paths[i], paths[j]))
    && forall k, path, r | StandsUnder(steps, vs, k, path, r) :: path in paths
  }

  ghost predicate AscendingSteps(steps: seq<Step>) {
    forall i, j | 0 <= i < j < |steps| :: StepBefore(steps[i], steps[j]) && steps[i] != steps[j]
  }

  /** What stands in each of some values, one after another, is in order. */
  lemma {:induction false} UnderInOrder(steps: seq<Step>, vs: seq<Value>)
    requires |steps| == |vs| && AscendingSteps(steps)
    requires forall v | v in vs :: AreInOrder(v, PlacesOf(v), References(v))
    ensures AreUnder(steps, vs, PlacesUnder(steps, vs), ReferencesOfAll(vs))
    decreases |vs|
  {
    hide StandsAt, PlacesOf, References, StepBefore;
    if vs != [] {
      assert vs[0] in vs;
      UnderInOrder(steps[1..], vs[1..]);
      var first := Under(steps[0], PlacesOf(vs[0]));
      OneMoreUnder(steps, vs, first, References(vs[0]), PlacesUnder(steps[1..], vs[1..]), ReferencesOfAll(vs[1..]));
    }
  }

  lemma OneMoreUnder(steps: seq<Step>, vs: seq<Value>, first: seq<Path>, refs: seq<Value>, rest: seq<Path>,
      more: seq<Value>)
    requires |steps| == |vs| > 0 && AscendingSteps(steps)
    requires AreInOrder(vs[0], PlacesOf(vs[0]), refs) && first == Under(steps[0], PlacesOf(vs[0]))
    requires AreUnder(steps[1..], vs[1..], rest, more)
    ensures AreUnder(steps, vs, first + rest, refs + more)
  {
    hide StandsAt, PlacesOf, StepBefore, Before;
    var paths, found := first + rest, refs + more;
    forall i | 0 <= i < |found| ensures StandsInOne(steps, vs, paths[i], found[i]) {
      if i < |refs| {
        assert paths[i][1..] == PlacesOf(vs[0])[i];
        assert StandsUnder(steps, vs, 0, paths[i], found[i]);
      } else {
        assert StandsInOne(steps[1..], vs[1..], rest[i - |refs|], more[i - |refs|]);
        var k :| StandsUnder(steps[1..], vs[1..], k, rest[i - |refs|], more[i - |refs|]);
        assert StandsUnder(steps, vs, k + 1, paths[i], found[i]);
      }
    }
    forall i, j | 0 <= i < j < |paths| ensures Before(paths[i], paths[j]) {
      FirstBeforeRest(steps, vs, PlacesOf(vs[0]), first, rest, more, i, j);
    }
    forall k, path, r | StandsUnder(steps, vs, k, path, r) ensures path in paths {
      if k == 0 {
        var i :| 0 <= i < |first| && PlacesOf(vs[0])[i] == path[1..];
        assert path == [path[0]] + path[1..] == paths[i];
      } else {
        assert StandsUnder(steps[1..], vs[1..], k - 1, path, r);
      }
    }
  }

  lemma FirstBeforeRest(steps: seq<Step>, vs: seq<Value>, inner: seq<Path>, first: seq<Path>, rest: seq<Path>,
      more: seq<Value>, i: int, j: int)
    requires |steps| == |vs| > 0 && AscendingSteps(steps)
    requires first == Under(steps[0], inner) && forall a, b | 0 <= a < b < |inner| :: Before(inner[a], inner[b])
    requires AreUnder(steps[1..], vs[1..], rest, more) && 0 <= i < j < |first + rest|
    ensures Before((first + rest)[i], (first + rest)[j])
  {
    hide StandsAt, StepBefore;
    if j < |first| {
      assert Before(inner[i], inner[j]);
      assert first[i][1..] == inner[i] && first[j][1..] == inner[j];
    } else if i < |first| {
      assert StandsInOne(steps[1..], vs[1..], rest[j - |first|], more[j - |first|]);
      var k :| StandsUnder(steps[1..], vs[1..], k, rest[j - |first|], more[j - |first|]);
      assert rest[j - |first|][0] == steps[k + 1];
    }
  }

  /** The members of an object, in the order of their keys. */
  function InOrderOf(v: Value, keys: seq<string>): (vs: seq<Value>)
    requires v.Obj? && forall k | k in keys :: k in v.members
    ensures |vs| == |keys| && forall i | 0 <= i < |keys| :: vs[i] == v.members[keys[i]]
  {
    seq(|keys|, i requires 0 <= i < |keys| => v.members[keys[i]])
  }

  function KeySteps(keys: seq<string>): (steps: seq<Step>)
    ensures |steps| == |keys| && forall i | 0 <= i < |keys| :: steps[i] == Key(keys[i])
  {
    seq(|keys|, i requires 0 <= i < |keys| => Key(keys[i]))
  }

  lemma KeysAscend(keys: seq<string>)
    requires Sorted(keys)
    ensures AscendingSteps(KeySteps(keys))
  {
    forall i, j | 0 <= i < j < |keys| ensures keys[i] != keys[j] {
      LessIsTotal(keys[i], keys[j]);
    }
  }

  lemma {:induction false} MembersAreUnder(v: Value, keys: seq<string>)
    requires v.Obj? && forall k | k in keys :: k in v.members
    ensures ReferencesOfMembers(v, keys) == ReferencesOfAll(InOrderOf(v, keys))
    ensures PlacesInMembers(v, keys) == PlacesUnder(KeySteps(keys), InOrderOf(v, keys))
    decreases |keys|
  {
    if keys != [] {
      MembersAreUnder(v, keys[1..]);
      assert InOrderOf(v, keys)[1..] == InOrderOf(v, keys[1..]);
      assert KeySteps(keys)[1..] == KeySteps(keys[1..]);
    }
  }

  /** The steps into a value are some steps, to some values. */
  ghost predicate AreSteps(v: Value, steps: seq<Step>, vs: seq<Value>) {
    && |steps| == |vs|
    && (forall i | 0 <= i < |steps| :: HasStep(v, steps[i]) && Into(v, steps[i]) == vs[i])
    && forall step | HasStep(v, step) :: step in steps
  }

  lemma InsideInOrder(v: Value, steps: seq<Step>, vs: seq<Value>, paths: seq<Path>, refs: seq<Value>)
    requires !IsLeafReference(v) && AreSteps(v, steps, vs) && AreUnder(steps, vs, paths, refs)
    ensures AreInOrder(v, paths, refs)
  {
    hide Before, HasStep, Into;
    forall i | 0 <= i < |refs| ensures StandsAt(v, paths[i], refs[i]) {
      assert StandsInOne(steps, vs, paths[i], refs[i]);
      var k :| StandsUnder(steps, vs, k, paths[i], refs[i]);
    }
    forall path, r | StandsAt(v, path, r) ensures path in paths {
      assert path != [];
      var k :| 0 <= k < |steps| && steps[k] == path[0];
      assert StandsUnder(steps, vs, k, path, r);
    }
  }

  lemma {:induction false} ReferencesAreInOrder(v: Value)
    ensures AreInOrder(v, PlacesOf(v), References(v))
    decreases v
  {
    hide AreInOrder, PlacesOf, References;
    match v
    case Concat(parts) =>
      forall i | 0 <= i < |parts| { ReferencesAreInOrder(parts[i]); }
      PartsInOrder(v, parts);
    case Arr(items) =>
      forall i | 0 <= i < |items| { ReferencesAreInOrder(items[i]); }
      PartsInOrder(v, items);
    case Obj(m) =>
      forall k | k in m { ReferencesAreInOrder(m[k]); }
      MembersInOrder(v);
    case _ => LeafInOrder(v);
  }

  lemma LeafInOrder(v: Value)
    requires !v.Arr? && !v.Concat? && !v.Obj?
    ensures AreInOrder(v, PlacesOf(v), References(v))
  {
    assert Leads(v, [], v);
  }

  lemma PartsInOrder(v: Value, vs: seq<Value>)
    requires (v.Arr? && vs == v.items) || (v.Concat? && vs == v.parts)
    requires forall w | w in vs :: AreInOrder(w, PlacesOf(w), References(w))
    ensures AreInOrder(v, PlacesOf(v), References(v))
  {
    hide AreInOrder, AreUnder;
    UnderInOrder(Indices(|vs|), vs);
    InsideInOrder(v, Indices(|vs|), vs, PlacesOf(v), References(v));
  }

  lemma MembersInOrder(v: Value)
    requires v.Obj?
    requires forall k | k in v.members :: AreInOrder(v.members[k], PlacesOf(v.members[k]), References(v.members[k]))
    ensures AreInOrder(v, PlacesOf(v), References(v))
  {
    hide AreInOrder, AreUnder, PlacesUnder, PlacesInMembers, ReferencesOfMembers, ReferencesOfAll, AscendingSteps;
    var keys := SortedNames(v.members.Keys);
    var vs := InOrderOf(v, keys);
    KeysAscend(keys);
    forall w | w in vs ensures AreInOrder(w, PlacesOf(w), References(w)) {
      var i :| 0 <= i < |vs| && vs[i] == w;
      assert w == v.members[keys[i]];
    }
    UnderInOrder(KeySteps(keys), vs);
    MembersAreUnder(v, keys);
    KeysAreSteps(v, keys, vs);
    InsideInOrder(v, KeySteps(keys), vs, PlacesOf(v), References(v));
  }

  lemma KeysAreSteps(v: Value, keys: seq<string>, vs: seq<Value>)
    requires v.Obj? && (forall k :: k in keys <==> k in v.members) && vs == InOrderOf(v, keys)
    ensures AreSteps(v, KeySteps(keys), vs)
  {
    forall step | HasStep(v, step) ensures step in KeySteps(keys) {
      var i :| 0 <= i < |keys| && keys[i] == step.key;
      assert KeySteps(keys)[i] == step;
    }
  }

  // First appearances

  ghost predicate FirstInOrder(refs: seq<Value>, found: seq<Value>) {
    forall i, j | 0 <= i < j < |found| :: MetBefore(refs, found[i], found[j])
  }

  ghost predicate MetBefore(refs: seq<Value>, a: Value, b: Value) {
    exists k :: 0 <= k < |refs| && refs[k] == a && forall l | 0 <= l < |refs| && refs[l] == b :: k < l
  }

  lemma MetBeforeAppears(v: Value, a: Value, b: Value)
    requires MetBefore(References(v), a, b)
    ensures AppearsBefore(v, a, b)
  {
    hide Before, StandsAt, PlacesOf, References;
    ReferencesAreInOrder(v);
    var refs, paths := References(v), PlacesOf(v);
    var k :| 0 <= k < |refs| && refs[k] == a && forall l | 0 <= l < |refs| && refs[l] == b :: k < l;
    forall later | StandsAt(v, later, b) ensures Before(paths[k], later) {
      var l :| 0 <= l < |paths| && paths[l] == later;
      OneStands(v, later, b, refs[l]);
    }
  }

  lemma OneStands(v: Value, path: Path, a: Value, b: Value)
    requires StandsAt(v, path, a) && StandsAt(v, path, b)
    ensures a == b
  {
    LeadsToOne(v, path, a, b);
  }

  function AsParameters(names: seq<string>): (vs: seq<Value>)
    ensures |vs| == |names| && forall i | 0 <= i < |names| :: vs[i] == Parameter(names[i])
  {
    seq(|names|, i requires 0 <= i < |names| => Parameter(names[i]))
  }

  lemma {:induction false} FoundInOrder(refs: seq<Value>)
    requires forall r | r in refs :: IsLeafReference(r)
    ensures FirstInOrder(refs, Unique(OutputsOf(refs)))
    ensures FirstInOrder(refs, AsParameters(Unique(ParametersOf(refs))))
    decreases |refs|
  {
    hide Unique, OutputsOf, ParametersOf;
    if refs == [] {
      EmptyFinds();
    } else {
      var before, r := refs[..|refs| - 1], refs[|refs| - 1];
      assert refs == before + [r];
      FoundInOrder(before);
      OneMore(before, r);
      FoundAreMet(before);
      var outputs, parameters := Unique(OutputsOf(before)), Unique(ParametersOf(before));
      if r.Output? {
        LastIsLater(before, r, outputs);
        LaterStays(before, r, AsParameters(parameters));
      } else {
        LaterStays(before, r, outputs);
        LastIsLater(before, r, AsParameters(parameters));
        assert AsParameters(Added(parameters, r.parameter)) == Added(AsParameters(parameters), r) by {
          assert r.parameter in parameters <==> r in AsParameters(parameters) by { FoundParameters(parameters, r); }
        }
      }
    }
  }

  lemma EmptyFinds()
    ensures Unique(OutputsOf([])) == [] && Unique(ParametersOf([])) == []
  {
  }

  lemma FoundParameters(parameters: seq<string>, r: Value)
    requires r.Parameter?
    ensures r.parameter in parameters <==> r in AsParameters(parameters)
  {
    if i :| 0 <= i < |parameters| && parameters[i] == r.parameter {
      assert AsParameters(parameters)[i] == r;
    }
  }

  lemma FoundAreMet(refs: seq<Value>)
    ensures forall o :: o in Unique(OutputsOf(refs)) <==> o.Output? && o in refs
    ensures forall o: Value | o.Parameter? :: o in refs <==> o in AsParameters(Unique(ParametersOf(refs)))
  {
    UniqueIsDistinct(OutputsOf(refs));
    UniqueIsDistinct(ParametersOf(refs));
    forall o ensures o in Unique(OutputsOf(refs)) <==> o.Output? && o in refs { OutputsAreReferences(refs, o); }
    forall o: Value | o.Parameter? ensures o in refs <==> o in AsParameters(Unique(ParametersOf(refs))) {
      OutputsAreReferences(refs, o);
      FoundParameters(Unique(ParametersOf(refs)), o);
    }
  }

  lemma LaterStays(refs: seq<Value>, r: Value, found: seq<Value>)
    requires FirstInOrder(refs, found)
    ensures FirstInOrder(refs + [r], found)
  {
    forall i, j | 0 <= i < j < |found| ensures MetBefore(refs + [r], found[i], found[j]) {
      assert MetBefore(refs, found[i], found[j]);
      var k :| 0 <= k < |refs| && refs[k] == found[i] && forall l | 0 <= l < |refs| && refs[l] == found[j] :: k < l;
      assert (refs + [r])[k] == found[i];
    }
  }

  lemma LastIsLater(refs: seq<Value>, r: Value, found: seq<Value>)
    requires FirstInOrder(refs, found) && (forall o | o in found :: o in refs) && (r in refs ==> r in found)
    ensures FirstInOrder(refs + [r], Added(found, r))
  {
    LaterStays(refs, r, found);
    if r !in found {
      forall i | 0 <= i < |found| ensures MetBefore(refs + [r], found[i], r) {
        assert found[i] in refs;
        var k :| 0 <= k < |refs| && refs[k] == found[i];
        assert (refs + [r])[k] == found[i];
      }
    }
  }

  lemma {:induction false} ReferencesAreLeaves(v: Value, r: Value)
    requires r in References(v)
    ensures IsLeafReference(r)
  {
    ReferencesAreInOrder(v);
    var i :| 0 <= i < |References(v)| && References(v)[i] == r;
    assert StandsAt(v, PlacesOf(v)[i], r);
  }

  /** Outputs and parameters are each found in the order in which they first appear: members in the order of
      their keys, items and parts in theirs. */
  lemma ValueRefsAppearInOrder(v: Value)
    ensures var outputs := Unique(OutputsOf(References(v)));
      forall i, j | 0 <= i < j < |outputs| :: AppearsBefore(v, outputs[i], outputs[j])
    ensures var parameters := Unique(ParametersOf(References(v)));
      forall i, j | 0 <= i < j < |parameters| :: AppearsBefore(v, Parameter(parameters[i]), Parameter(parameters[j]))
  {
    hide AppearsBefore, MetBefore, Unique, References, OutputsOf, ParametersOf;
    var refs := References(v);
    forall r | r in refs ensures IsLeafReference(r) { ReferencesAreLeaves(v, r); }
    FoundInOrder(refs);
    var outputs, parameters := Unique(OutputsOf(refs)), Unique(ParametersOf(refs));
    forall i, j | 0 <= i < j < |outputs| ensures AppearsBefore(v, outputs[i], outputs[j]) {
      MetBeforeAppears(v, outputs[i], outputs[j]);
    }
    forall i, j | 0 <= i < j < |parameters|
      ensures AppearsBefore(v, Parameter(parameters[i]), Parameter(parameters[j]))
    {
      assert AsParameters(parameters)[i] == Parameter(parameters[i]);
      assert AsParameters(parameters)[j] == Parameter(parameters[j]);
      MetBeforeAppears(v, Parameter(parameters[i]), Parameter(parameters[j]));
    }
  }
}
