/** Which outputs and parameters a value holds references to. */
module ValueRefs {
  import opened Order
  import opened Values

  /** The outputs and parameters of a value, members in the order of their keys, repeats and all. */
  ghost function References(v: Value): seq<Value>
    decreases v, 1
  {
    match v
    case Output(_, _) => [v]
    case Parameter(_) => [v]
    case Concat(parts) => ReferencesOfAll(parts)
    case Arr(items) => ReferencesOfAll(items)
    case Obj(m) => ReferencesOfMembers(v, SortedNames(m.Keys))
    case _ => []
  }

  ghost function ReferencesOfAll(vs: seq<Value>): seq<Value>
    decreases vs, 0
  {
    if vs == [] then [] else References(vs[0]) + ReferencesOfAll(vs[1..])
  }

  ghost function ReferencesOfMembers(v: Value, keys: seq<string>): seq<Value>
    requires v.Obj? && forall k | k in keys :: k in v.members
    decreases v, 0, |keys|
  {
    if keys == [] then [] else References(v.members[keys[0]]) + ReferencesOfMembers(v, keys[1..])
  }

  /** Whether r is v, or is inside it. */
  predicate Holds(v: Value, r: Value) {
    match v
    case Concat(parts) => exists i :: 0 <= i < |parts| && Holds(parts[i], r)
    case Arr(items) => exists i :: 0 <= i < |items| && Holds(items[i], r)
    case Obj(m) => exists k :: k in m && Holds(m[k], r)
    case _ => v == r
  }

  predicate IsLeafReference(r: Value) {
    r.Output? || r.Parameter?
  }

  lemma {:induction false} ReferencesAreHeld(v: Value, r: Value)
    requires IsLeafReference(r)
    ensures r in References(v) <==> Holds(v, r)
    decreases v, 1
  {
    match v
    case Concat(parts) => ReferencesOfAllAreHeld(parts, r);
    case Arr(items) => ReferencesOfAllAreHeld(items, r);
    case Obj(m) =>
      ReferencesOfMembersAreHeld(v, SortedNames(m.Keys), r);
    case _ =>
  }

  lemma {:induction false} ReferencesOfAllAreHeld(vs: seq<Value>, r: Value)
    requires IsLeafReference(r)
    ensures r in ReferencesOfAll(vs) <==> exists i :: 0 <= i < |vs| && Holds(vs[i], r)
    decreases vs, 0
  {
    if vs != [] {
      ReferencesAreHeld(vs[0], r);
      ReferencesOfAllAreHeld(vs[1..], r);
      if i :| 0 <= i < |vs| && Holds(vs[i], r) {
        assert i > 0 ==> vs[1..][i - 1] == vs[i];
      }
    }
  }

  lemma {:induction false} ReferencesOfMembersAreHeld(v: Value, keys: seq<string>, r: Value)
    requires v.Obj? && IsLeafReference(r) && forall k | k in keys :: k in v.members
    ensures r in ReferencesOfMembers(v, keys) <==> exists k :: k in keys && Holds(v.members[k], r)
    decreases v, 0, |keys|
  {
    if keys != [] {
      ReferencesAreHeld(v.members[keys[0]], r);
      ReferencesOfMembersAreHeld(v, keys[1..], r);
      assert forall k :: k in keys <==> k == keys[0] || k in keys[1..];
    }
  }

  /** A list without the repeats of what came before. */
  function Unique<T(==)>(s: seq<T>): seq<T> {
    if s == [] then []
    else
      var before, last := Unique(s[..|s| - 1]), s[|s| - 1];
      if last in before then before else before + [last]
  }

  lemma {:induction false} UniqueIsDistinct<T>(s: seq<T>)
    ensures forall x :: x in Unique(s) <==> x in s
    ensures forall i, j | 0 <= i < j < |Unique(s)| :: Unique(s)[i] != Unique(s)[j]
  {
    if s != [] {
      UniqueIsDistinct(s[..|s| - 1]);
      assert s == s[..|s| - 1] + [s[|s| - 1]];
    }
  }

  function OutputsOf(refs: seq<Value>): seq<Value> {
    if refs == [] then []
    else OutputsOf(refs[..|refs| - 1]) + if refs[|refs| - 1].Output? then [refs[|refs| - 1]] else []
  }

  function ParametersOf(refs: seq<Value>): seq<string> {
    if refs == [] then []
    else ParametersOf(refs[..|refs| - 1]) + if refs[|refs| - 1].Parameter? then [refs[|refs| - 1].parameter] else []
  }

  function Added<T(==)>(s: seq<T>, x: T): seq<T> {
    if x in s then s else s + [x]
  }

  lemma UniqueOneMore<T>(s: seq<T>, x: T)
    ensures Unique(s + [x]) == Added(Unique(s), x)
  {
  }

  lemma OneMore(refs: seq<Value>, r: Value)
    requires IsLeafReference(r)
    ensures var outputs := Unique(OutputsOf(refs));
      Unique(OutputsOf(refs + [r])) == if r.Output? then Added(outputs, r) else outputs
    ensures var parameters := Unique(ParametersOf(refs));
      Unique(ParametersOf(refs + [r])) == if r.Parameter? then Added(parameters, r.parameter) else parameters
  {
    assert (refs + [r])[..|refs|] == refs;
    if r.Output? {
      UniqueOneMore(OutputsOf(refs), r);
      assert ParametersOf(refs + [r]) == ParametersOf(refs);
    } else {
      UniqueOneMore(ParametersOf(refs), r.parameter);
      assert OutputsOf(refs + [r]) == OutputsOf(refs);
    }
  }

  /** Collects the references of values as it walks them. `met` are those met so far, repeats and all. */
  class Collector {
    var seenOutputs: set<Value>
    var seenParameters: set<string>
    var outputs: seq<Value>
    var parameters: seq<string>
    ghost var met: seq<Value>

    ghost predicate Valid()
      reads this
    {
      && outputs == Unique(OutputsOf(met)) && seenOutputs == (set o | o in outputs)
      && parameters == Unique(ParametersOf(met)) && seenParameters == (set p | p in parameters)
    }

    constructor ()
      ensures Valid() && met == []
    {
      seenOutputs, seenParameters, outputs, parameters, met := {}, {}, [], [], [];
    }

    method Meet(r: Value)
      requires Valid() && IsLeafReference(r)
      modifies this
      ensures Valid() && met == old(met) + [r]
    {
      hide Unique, OutputsOf, ParametersOf;
      OneMore(met, r);
      met := met + [r];
      if r.Output? {
        if r !in seenOutputs {
          seenOutputs := seenOutputs + {r};
          outputs := outputs + [r];
        }
      } else {
        if r.parameter !in seenParameters {
          seenParameters := seenParameters + {r.parameter};
          parameters := parameters + [r.parameter];
        }
      }
    }

    method Walk(v: Value)
      requires Valid()
      modifies this
      ensures Valid() && met == old(met) + References(v)
      decreases v, 1
    {
      hide Valid;
      match v
      case Output(_, _) => Meet(v);
      case Parameter(_) => Meet(v);
      case Concat(parts) => WalkAll(parts);
      case Arr(items) => WalkAll(items);
      case Obj(m) =>
        var keys := SortNames(m.Keys);
        WalkMembers(v, keys);
      case _ =>
    }

    method WalkAll(vs: seq<Value>)
      requires Valid()
      modifies this
      ensures Valid() && met == old(met) + ReferencesOfAll(vs)
      decreases vs, 0
    {
      hide Valid, References;
      if vs != [] {
        Walk(vs[0]);
        WalkAll(vs[1..]);
      }
    }

    method WalkMembers(v: Value, keys: seq<string>)
      requires Valid() && v.Obj? && forall k | k in keys :: k in v.members
      modifies this
      ensures Valid() && met == old(met) + ReferencesOfMembers(v, keys)
      decreases v, 0, |keys|
    {
      hide Valid;
      if keys != [] {
        Walk(v.members[keys[0]]);
        WalkMembers(v, keys[1..]);
      }
    }
  }

  /** The distinct references of a value, outputs apart from parameters, by first appearance. */
  method FindValueRefs(v: Value) returns (outputs: seq<Value>, parameters: seq<string>)
    ensures outputs == Unique(OutputsOf(References(v))) && parameters == Unique(ParametersOf(References(v)))
  {
    var c := new Collector();
    c.Walk(v);
    assert c.met == References(v);
    outputs, parameters := c.outputs, c.parameters;
  }

  lemma {:induction false} OutputsAreReferences(refs: seq<Value>, o: Value)
    ensures o in OutputsOf(refs) <==> o.Output? && o in refs
    ensures forall p :: p in ParametersOf(refs) <==> Parameter(p) in refs
  {
    if refs != [] {
      OutputsAreReferences(refs[..|refs| - 1], o);
      assert refs == refs[..|refs| - 1] + [refs[|refs| - 1]];
    }
  }

  /** What is found is each output and each parameter inside the value, once. */
  lemma ValueRefsAreHeld(v: Value)
    ensures var outputs := Unique(OutputsOf(References(v)));
      && (forall o :: o in outputs <==> o.Output? && Holds(v, o))
      && forall i, j | 0 <= i < j < |outputs| :: outputs[i] != outputs[j]
    ensures var parameters := Unique(ParametersOf(References(v)));
      && (forall p :: p in parameters <==> Holds(v, Parameter(p)))
      && forall i, j | 0 <= i < j < |parameters| :: parameters[i] != parameters[j]
  {
    var refs := References(v);
    UniqueIsDistinct(OutputsOf(refs));
    UniqueIsDistinct(ParametersOf(refs));
    forall o ensures o in Unique(OutputsOf(refs)) <==> o.Output? && Holds(v, o) {
      OutputsAreReferences(refs, o);
      if o.Output? { ReferencesAreHeld(v, o); }
    }
    forall p ensures p in Unique(ParametersOf(refs)) <==> Holds(v, Parameter(p)) {
      OutputsAreReferences(refs, Null);
      ReferencesAreHeld(v, Parameter(p));
    }
  }
}
