/** A schema's config class: the one @envVars class no other @envVars class extends. */
module EnvVars {
  import opened Basics
  import opened Order

  /** What the search reads of a type: whether it is an @envVars class, and the class it extends, or "". */
  datatype TypeDef = TypeDef(envVars: bool, base: string)

  /** A schema's types by name. */
  type Types = map<string, TypeDef>

  datatype Found = NoConfig | Config(name: string) | Several(leaves: seq<string>) | Cyclic(classes: seq<string>)

  // Extension

  predicate Step(types: Types, a: string, b: string) {
    a in types && types[a].base == b && b != ""
  }

  ghost predicate Chain(types: Types, chain: seq<string>) {
    |chain| >= 2 && forall i | 0 <= i < |chain| - 1 :: Step(types, chain[i], chain[i + 1])
  }

  /** a extends b, directly or through the classes between them. */
  ghost predicate Extends(types: Types, a: string, b: string) {
    exists chain :: Chain(types, chain) && chain[0] == a && chain[|chain| - 1] == b
  }

  lemma StepExtends(types: Types, a: string, b: string)
    requires Step(types, a, b)
    ensures Extends(types, a, b)
  {
    assert Chain(types, [a, b]);
  }

  lemma ExtendsIsTransitive(types: Types, a: string, b: string, c: string)
    requires Extends(types, a, b) && Extends(types, b, c)
    ensures Extends(types, a, c)
  {
    var ab :| Chain(types, ab) && ab[0] == a && ab[|ab| - 1] == b;
    var bc :| Chain(types, bc) && bc[0] == b && bc[|bc| - 1] == c;
    var ac := ab + bc[1..];
    assert forall i | 0 <= i < |bc| - 1 :: ac[|ab| - 1 + i] == bc[i];
    forall i | 0 <= i < |ac| - 1 ensures Step(types, ac[i], ac[i + 1]) {
      if i >= |ab| - 1 {
        assert Step(types, bc[i - |ab| + 1], bc[i - |ab| + 2]);
      }
    }
    assert Chain(types, ac);
  }

  /** The classes a class extends, nearest first, each once and without itself, from `base` on. */
  function BasesFrom(types: Types, base: string, seen: set<string>): (r: seq<string>)
    decreases types.Keys - seen
  {
    if base == "" || base in seen then []
    else if base !in types then [base]
    else [base] + BasesFrom(types, types[base].base, seen + {base})
  }

  function BasesOf(types: Types, name: string): seq<string> {
    if name in types then BasesFrom(types, types[name].base, {name}) else []
  }

  method FindBases(types: Types, name: string) returns (bases: seq<string>)
    requires name in types
    ensures bases == BasesOf(types, name)
  {
    bases := [];
    var seen := {name};
    var base := types[name].base;
    while base != "" && base !in seen
      invariant BasesOf(types, name) == bases + BasesFrom(types, base, seen)
      decreases types.Keys - seen, if base == "" || base in seen then 0 else 1
    {
      seen := seen + {base};
      bases := bases + [base];
      if base !in types {
        assert BasesOf(types, name) == bases;
        return;
      }
      base := types[base].base;
    }
  }

  /** The walk finds exactly the classes a class extends, other than itself, whatever cycles there are. */
  lemma BasesAreExtended(types: Types, name: string, b: string)
    requires name in types
    ensures b in BasesOf(types, name) <==> b != name && Extends(types, name, b)
  {
    var bases := BasesOf(types, name);
    var base := types[name].base;
    if base != "" {
      StepExtends(types, name, base);
      BasesReach(types, name, base, {name});
    }
    BasesAreClosed(types, base, {name});
    var holds := (set n | n in bases) + {name};
    if Extends(types, name, b) {
      var chain :| Chain(types, chain) && chain[0] == name && chain[|chain| - 1] == b;
      for i := 1 to |chain|
        invariant chain[i - 1] in holds
      {
        assert Step(types, chain[i - 1], chain[i]);
      }
    }
  }

  lemma {:induction false} BasesReach(types: Types, name: string, base: string, seen: set<string>)
    requires name in seen && (base == "" || Extends(types, name, base))
    ensures forall b | b in BasesFrom(types, base, seen) :: Extends(types, name, b) && b !in seen
    decreases types.Keys - seen
  {
    if base != "" && base !in seen && base in types {
      var next := types[base].base;
      if next != "" {
        StepExtends(types, base, next);
        ExtendsIsTransitive(types, name, base, next);
      }
      BasesReach(types, name, next, seen + {base});
    }
  }

  /** What a walk finds, with what it had seen, holds every class a found one extends directly. */
  lemma {:induction false} BasesAreClosed(types: Types, base: string, seen: set<string>)
    ensures var bases := BasesFrom(types, base, seen);
      && (base == "" || base in seen || base in bases)
      && forall a, b | a in bases && Step(types, a, b) :: b in bases || b in seen
    decreases types.Keys - seen
  {
    if base != "" && base !in seen && base in types {
      BasesAreClosed(types, types[base].base, seen + {base});
    }
  }

  // The config class

  predicate IsClass(types: Types, name: string) {
    name in types && types[name].envVars
  }

  function ClassNames(types: Types): set<string> {
    set n | n in types && types[n].envVars
  }

  /** Another @envVars class extends it. */
  ghost predicate Extended(types: Types, c: string) {
    exists d :: IsClass(types, d) && d != c && Extends(types, d, c)
  }

  ghost function Leaves(types: Types): set<string> {
    set c | c in ClassNames(types) && !Extended(types, c)
  }

  /** What the search answers, in terms of which @envVars classes extend which. */
  ghost predicate IsFound(types: Types, found: Found) {
    match found
    case NoConfig => ClassNames(types) == {}
    case Config(name) => Leaves(types) == {name}
    case Several(leaves) => |Leaves(types)| > 1 && leaves == SortedNames(Leaves(types))
    case Cyclic(classes) => ClassNames(types) != {} && Leaves(types) == {} && classes == SortedNames(ClassNames(types))
  }

  /** The search has one answer. */
  lemma FoundIsUnique(types: Types, a: Found, b: Found)
    requires IsFound(types, a) && IsFound(types, b)
    ensures a == b
  {
  }

  /** No other @envVars class extends this one. */
  ghost predicate IsUnextended(types: Types, name: string) {
    IsClass(types, name) && forall d | IsClass(types, d) && Extends(types, d, name) :: d == name
  }

  /** Several classes are listed, in order, when none of them is extended by another; and all, when each is. */
  lemma FoundLists(types: Types, found: Found)
    requires IsFound(types, found)
    ensures found.NoConfig? <==> forall n :: !IsClass(types, n)
    ensures found.Several? ==> Sorted(found.leaves) && |found.leaves| > 1
    ensures found.Several? ==> forall n :: n in found.leaves <==> IsUnextended(types, n)
    ensures found.Config? ==> forall n :: n == found.name <==> IsUnextended(types, n)
    ensures found.Cyclic? ==> Sorted(found.classes) && forall n :: n in found.classes <==> IsClass(types, n)
    ensures found.Cyclic? ==> forall n :: !IsUnextended(types, n)
  {
    forall n ensures IsUnextended(types, n) <==> n in Leaves(types) {
      assert IsClass(types, n) <==> n in ClassNames(types);
      if IsClass(types, n) && Extended(types, n) {
        var d :| IsClass(types, d) && d != n && Extends(types, d, n);
      }
    }
    assert forall n :: IsClass(types, n) <==> n in ClassNames(types);
  }

  method EnvVarsType(types: Types) returns (found: Found)
    ensures IsFound(types, found)
  {
    hide Extended, BasesOf;
    var classes := SortNames(ClassNames(types));
    assert |classes| == |ClassNames(types)|;
    if classes == [] {
      return NoConfig;
    }
    var extended := FindExtended(types, classes);
    var leaves := FindLeaves(types, classes, extended);
    assert |leaves| == |Leaves(types)|;
    if |leaves| == 1 {
      assert forall c :: c in leaves <==> c == leaves[0];
      assert forall c :: c in Leaves(types) <==> c == leaves[0];
      return Config(leaves[0]);
    }
    if |leaves| == 0 {
      assert classes[0] in ClassNames(types);
      return Cyclic(classes);
    }
    found := Several(leaves);
  }

  /** The classes the @envVars classes extend. */
  method FindExtended(types: Types, classes: seq<string>) returns (extended: set<string>)
    requires forall c :: c in classes <==> IsClass(types, c)
    ensures forall c | IsClass(types, c) :: c in extended <==> Extended(types, c)
  {
    hide Extends, BasesOf;
    extended := {};
    for i := 0 to |classes|
      invariant extended == ExtendedBy(types, classes[..i])
    {
      assert classes[i] in classes;
      var bases := FindBases(types, classes[i]);
      assert classes[..i + 1] == classes[..i] + [classes[i]];
      extended := extended + set b | b in bases;
    }
    assert classes[..|classes|] == classes;
    forall c | IsClass(types, c) ensures c in extended <==> Extended(types, c) {
      ExtendedIsFound(types, classes, c);
    }
  }

  function ExtendedBy(types: Types, classes: seq<string>): set<string> {
    set c, b | c in classes && b in BasesOf(types, c) :: b
  }

  method FindLeaves(types: Types, classes: seq<string>, extended: set<string>) returns (leaves: seq<string>)
    requires classes == SortedNames(ClassNames(types))
    requires forall c | IsClass(types, c) :: c in extended <==> Extended(types, c)
    ensures leaves == SortedNames(Leaves(types))
  {
    hide Extended, Leaves, Less, ClassNames, Sorted;
    leaves := [];
    for i := 0 to |classes|
      invariant leaves == Dropping(classes[..i], extended)
    {
      assert classes[..i + 1][..i] == classes[..i];
      if classes[i] !in extended {
        leaves := leaves + [classes[i]];
      }
    }
    assert classes[..|classes|] == classes;
    DroppingKeepsOrder(classes, extended);
    LeavesSorted(types, classes, extended, leaves);
  }

  lemma LeavesSorted(types: Types, classes: seq<string>, extended: set<string>, leaves: seq<string>)
    requires classes == SortedNames(ClassNames(types)) && Sorted(leaves)
    requires forall c | IsClass(types, c) :: c in extended <==> Extended(types, c)
    requires forall c :: c in leaves <==> c in classes && c !in extended
    ensures leaves == SortedNames(Leaves(types))
  {
    hide Extended;
    forall c ensures c in leaves <==> c in SortedNames(Leaves(types)) {
      assert c in classes <==> IsClass(types, c);
    }
    SortedIsUnique(leaves, SortedNames(Leaves(types)));
  }

  lemma ExtendedIsFound(types: Types, classes: seq<string>, c: string)
    requires forall d :: d in classes <==> IsClass(types, d)
    ensures c in ExtendedBy(types, classes) <==> Extended(types, c)
  {
    hide Extends, BasesOf;
    if c in ExtendedBy(types, classes) {
      var d :| d in classes && c in BasesOf(types, d);
      BasesAreExtended(types, d, c);
    }
    if Extended(types, c) {
      var d :| IsClass(types, d) && d != c && Extends(types, d, c);
      BasesAreExtended(types, d, c);
    }
  }

  // What the config class holds

  /** Two @envVars classes that extend each other, which only a cycle of `extends` makes. */
  ghost predicate Mutual(types: Types, a: string, b: string) {
    IsClass(types, a) && IsClass(types, b) && a != b && Extends(types, a, b) && Extends(types, b, a)
  }

  lemma MutualIsACycle(types: Types, a: string, b: string)
    requires Mutual(types, a, b)
    ensures Extends(types, a, a)
  {
    ExtendsIsTransitive(types, a, b, a);
  }

  /** The class holds every @envVars field: it extends every other @envVars class. */
  ghost predicate HoldsEvery(types: Types, name: string) {
    IsClass(types, name) && forall c | IsClass(types, c) && c != name :: Extends(types, name, c)
  }

  /** Some @envVars class extends this one, which does not extend it back. */
  ghost predicate ExtendedOneWay(types: Types, a: string) {
    exists c :: IsClass(types, c) && OneWay(types, c, a)
  }

  ghost predicate OneWay(types: Types, c: string, a: string) {
    c != a && Extends(types, c, a) && !Extends(types, a, c)
  }

  /** The @envVars classes that extend one and that it does not extend. */
  ghost function Above(types: Types, c: string): set<string> {
    set d | d in ClassNames(types) && OneWay(types, d, c)
  }

  lemma AboveShrinks(types: Types, d: string, c: string)
    requires IsClass(types, d) && OneWay(types, d, c)
    ensures |Above(types, d)| < |Above(types, c)|
  {
    hide Extends;
    forall e | e in Above(types, d) ensures e in Above(types, c) {
      ExtendsIsTransitive(types, e, d, c);
      if Extends(types, c, e) {
        ExtendsIsTransitive(types, d, c, e);
      }
    }
    assert d in Above(types, c) && d !in Above(types, d);
    SubsetSize(Above(types, d), Above(types, c));
  }

  lemma {:induction false} LeafExtends(types: Types, leaf: string, c: string)
    requires forall d | IsClass(types, d) && d != leaf :: Extended(types, d)
    requires forall a, b | Mutual(types, a, b) :: ExtendedOneWay(types, a)
    requires IsClass(types, c) && c != leaf
    ensures Extends(types, leaf, c)
    decreases |Above(types, c)|
  {
    var d :| IsClass(types, d) && d != c && Extends(types, d, c);
    assert Mutual(types, c, d) || OneWay(types, d, c);
    var e :| IsClass(types, e) && OneWay(types, e, c);
    assert OneWay(types, e, c);
    if e != leaf {
      AboveShrinks(types, e, c);
      LeafExtends(types, leaf, e);
      ExtendsIsTransitive(types, leaf, e, c);
    }
  }

  /** Where the search returns a class, it holds every @envVars field exactly when each class of each pair
      that extend each other is extended by a class it does not extend. */
  lemma ConfigHoldsEvery(types: Types, name: string)
    requires IsFound(types, Config(name))
    ensures HoldsEvery(types, name) <==> forall a, b | Mutual(types, a, b) :: ExtendedOneWay(types, a)
  {
    hide Extends;
    assert name in Leaves(types) && IsClass(types, name) && !Extended(types, name);
    assert forall d | IsClass(types, d) && d != name :: d !in Leaves(types);
    if forall a, b | Mutual(types, a, b) :: ExtendedOneWay(types, a) {
      forall c | IsClass(types, c) && c != name ensures Extends(types, name, c) {
        LeafExtends(types, name, c);
      }
    }
    if HoldsEvery(types, name) {
      forall a, b | Mutual(types, a, b) ensures ExtendedOneWay(types, a) {
        assert a != name && !Extends(types, a, name);
        assert OneWay(types, name, a);
      }
    }
  }

  /** Where no two @envVars classes extend each other, the search returns a class exactly when one
      extends all the others, and that one; and it never reports a cycle. */
  lemma ConfigWithoutMutual(types: Types, found: Found)
    requires IsFound(types, found)
    requires forall a, b :: !Mutual(types, a, b)
    ensures forall name :: found == Config(name) <==> HoldsEvery(types, name)
    ensures !found.Cyclic?
  {
    forall name | HoldsEvery(types, name) ensures Leaves(types) == {name} {
      forall c | c in ClassNames(types) ensures c in Leaves(types) <==> c == name {
        if c == name && Extended(types, c) {
          var d :| IsClass(types, d) && d != c && Extends(types, d, c);
          assert Mutual(types, c, d);
        }
      }
    }
    forall name | found == Config(name) ensures HoldsEvery(types, name) {
      ConfigHoldsEvery(types, name);
    }
    forall name | HoldsEvery(types, name) ensures found == Config(name) {
      FoundIsUnique(types, found, Config(name));
    }
    if found.Cyclic? {
      CyclicIsMutual(types, found);
    }
  }

  /** A cycle is reported only where two @envVars classes extend each other. */
  lemma CyclicIsMutual(types: Types, found: Found)
    requires IsFound(types, found) && found.Cyclic?
    ensures exists a, b :: Mutual(types, a, b)
  {
    hide IsFound, IsClass, Extended, Extends, Mutual;
    CyclicExtendsAll(types, found);
    var c :| IsClass(types, c);
    ExtendedByAnother(types, c);
  }

  lemma ExtendedByAnother(types: Types, c: string)
    requires IsClass(types, c) && forall e | IsClass(types, e) :: Extended(types, e)
    ensures exists a, b :: Mutual(types, a, b)
  {
    hide Extends, Mutual, IsClass;
    assert Extended(types, c);
    var d :| IsClass(types, d) && d != c && Extends(types, d, c);
    if !Mutual(types, c, d) {
      CyclicHasAnother(types, c, d);
    }
  }

  lemma CyclicExtendsAll(types: Types, found: Found)
    requires IsFound(types, found) && found.Cyclic?
    ensures exists c :: IsClass(types, c)
    ensures forall c | IsClass(types, c) :: Extended(types, c)
  {
    hide Extends;
    var c :| c in ClassNames(types);
    assert IsClass(types, c);
    forall d | IsClass(types, d) ensures Extended(types, d) {
      assert d !in Leaves(types);
    }
  }

  lemma CyclicHasAnother(types: Types, c: string, d: string)
    requires forall e | IsClass(types, e) :: Extended(types, e)
    requires IsClass(types, c) && IsClass(types, d) && c != d && Extends(types, d, c) && !Mutual(types, c, d)
    ensures exists a, b :: Mutual(types, a, b)
  {
    if a, b :| Mutual(types, a, b) {
    } else {
      LeafExtends(types, c, d);
    }
  }

  /** Two classes that extend each other and an unrelated third: the search returns the third, which
      holds the fields of neither. */
  lemma MutualPairMisleads(types: Types)
    requires types == map["A" := TypeDef(true, "B"), "B" := TypeDef(true, "A"), "C" := TypeDef(true, "")]
    ensures IsFound(types, Config("C")) && !HoldsEvery(types, "C")
  {
    StepExtends(types, "A", "B");
    StepExtends(types, "B", "A");
    forall chain | Chain(types, chain) ensures chain[0] != "C" && chain[|chain| - 1] != "C" {
      assert Step(types, chain[0], chain[1]);
      assert Step(types, chain[|chain| - 2], chain[|chain| - 1]);
    }
    assert IsClass(types, "A") && IsClass(types, "B") && IsClass(types, "C");
    assert Extended(types, "A") && Extended(types, "B") && !Extended(types, "C");
    assert Leaves(types) == {"C"};
  }

  /** The bases of a class are met in turn: each is what the one before extends. */
  lemma {:induction false} BasesAreInTurn(types: Types, name: string)
    requires name in types
    ensures var met := [name] + BasesOf(types, name);
      && (forall i | 0 <= i < |met| - 1 :: Step(types, met[i], met[i + 1]))
      && forall i, j | 0 <= i < j < |met| :: met[i] != met[j]
  {
    BasesGoOn(types, name, {name});
  }

  lemma {:induction false} BasesGoOn(types: Types, name: string, seen: set<string>)
    requires name in types && name in seen
    ensures var bases := BasesFrom(types, types[name].base, seen); var met := [name] + bases;
      && (forall i | 0 <= i < |met| - 1 :: Step(types, met[i], met[i + 1]))
      && (forall b | b in bases :: b !in seen)
      && forall i, j | 0 <= i < j < |bases| :: bases[i] != bases[j]
    decreases types.Keys - seen
  {
    var base := types[name].base;
    if base != "" && base !in seen && base in types {
      BasesGoOn(types, base, seen + {base});
      var bases, later := BasesFrom(types, base, seen), BasesFrom(types, types[base].base, seen + {base});
      assert bases == [base] + later;
      var met := [name] + bases;
      forall i | 0 <= i < |met| - 1 ensures Step(types, met[i], met[i + 1]) {
        if i > 0 {
          assert Step(types, bases[i - 1], bases[i]);
        }
      }
    }
  }
}
