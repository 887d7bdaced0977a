/** The shapes of derived values, and what the naming rule of their variables keeps: variables of one
    value never share a name, and a reader that knows the shape recovers the value from them. */
module Shapes {
  import opened Order
  import opened Text
  import opened Values
  import opened DerivedVariables
  import opened CamelNames

  /** A string or a reference; a list of strings; a whole number; an object whose members are optional;
      or a list of objects. */
  datatype Shape = Text | Texts | Count | Record(fields: map<string, Shape>) | ListOf(item: Shape)

  predicate IsLeaf(shape: Shape) {
    shape.Text? || shape.Texts? || shape.Count?
  }

  predicate IsText(v: Value) {
    v.Str? || IsReference(v)
  }

  predicate Fits(shape: Shape, v: Value)
    decreases shape
  {
    match shape
    case Text => IsText(v)
    case Texts => v.Arr? && v.items != [] && forall i | 0 <= i < |v.items| :: v.items[i].Str? && ',' !in v.items[i].s
    case Count => v.Num? && v.n == v.n.Floor as real
    case Record(fields) =>
      v.Obj? && v.members != map[] && forall k | k in v.members :: k in fields && Fits(fields[k], v.members[k])
    case ListOf(item) => v.Arr? && forall i | 0 <= i < |v.items| :: v.items[i].Obj? && Fits(item, v.items[i])
  }

  /** Every number of the value is one the encoding takes. */
  predicate Bounded(shape: Shape, v: Value)
    requires Fits(shape, v)
    decreases shape
  {
    match shape
    case Count => IsWhole(v.n)
    case Record(fields) => forall k | k in v.members :: Bounded(fields[k], v.members[k])
    case ListOf(item) => forall i | 0 <= i < |v.items| :: Bounded(item, v.items[i])
    case _ => true
  }

  /** The members of every object are told apart by their segments: no two are equal, and one is
      followed by an underscore in another only when it is a leaf's, whose one variable is its name. */
  predicate Separable(shape: Shape) {
    match shape
    case Record(fields) =>
      && (forall k, k' | k in fields && k' in fields && k != k' ::
            Segment(k) != Segment(k') && (Segment(k) + "_" <= Segment(k') ==> IsLeaf(fields[k])))
      && forall k | k in fields :: Separable(fields[k])
    case ListOf(item) => item.Record? && Separable(item)
    case _ => true
  }

  /** Members named in camel case are told apart, when none but a leaf begins another. */
  lemma CamelSeparable(fields: map<string, Shape>)
    requires forall k | k in fields :: IsCamel(k) && Separable(fields[k])
    requires forall k, k' | k in fields && k' in fields && k != k' && !IsLeaf(fields[k]) :: !(k <= k')
    ensures Separable(Record(fields))
  {
    hide IsCamel, Segment, SegmentFrom;
    forall k, k' | k in fields && k' in fields && k != k'
      ensures Segment(k) != Segment(k') && (Segment(k) + "_" <= Segment(k') ==> IsLeaf(fields[k]))
    {
      SegmentsApart(k, k');
    }
  }

  /** The names a value of a shape may give its variables. */
  predicate Claims(shape: Shape, name: string, n: string) {
    if IsLeaf(shape) then n == name
    else name + "_" <= n || (shape.ListOf? && n == name)
  }

  // Names apart

  /** Of two names after one lead that begin a third, the shorter begins the longer; and so it does with
      an underscore after it, when that begins the third too. */
  lemma SegmentsNest(lead: string, s: string, s': string, n: string)
    requires |s| <= |s'| && lead + s <= n && lead + s' <= n
    ensures s <= s'
    ensures lead + s + "_" <= n && |s| < |s'| ==> s + "_" <= s' && s'[|s|] == '_'
  {
    assert s == n[|lead|..][..|s|] && s' == n[|lead|..][..|s'|];
    assert s'[..|s|] == s;
    if lead + s + "_" <= n && |s| < |s'| {
      assert (lead + s + "_")[|lead| + |s|] == '_';
      assert s'[|s|] == (lead + s')[|lead| + |s|];
      assert s'[..|s| + 1] == s + "_";
    }
  }

  /** Two members of one object share no variable. */
  lemma MembersApart(fields: map<string, Shape>, name: string, k: string, k': string, n: string)
    requires Separable(Record(fields)) && k in fields && k' in fields && k != k'
    requires Claims(fields[k], Member(name, k), n)
    ensures !Claims(fields[k'], Member(name, k'), n)
  {
    var lead := name + "_";
    var s, s' := Segment(k), Segment(k');
    assert Member(name, k) == lead + s && Member(name, k') == lead + s';
    if lead + s' <= n {
      assert lead + s <= n;
      if |s| <= |s'| {
        SegmentsNest(lead, s, s', n);
      } else {
        SegmentsNest(lead, s', s, n);
      }
    }
  }

  /** Two objects of one list share no variable. */
  lemma ElementsApart(name: string, i: nat, j: nat, n: string)
    requires Element(name, i) + "_" <= n && Element(name, j) + "_" <= n
    ensures i == j
  {
    var lead := name + "_";
    var s, s' := Decimal(i), Decimal(j);
    assert Element(name, i) == lead + s && Element(name, j) == lead + s';
    if |s| <= |s'| {
      SegmentsNest(lead, s, s', n);
      DigitsNest(s, s');
    } else {
      SegmentsNest(lead, s', s, n);
      DigitsNest(s', s);
    }
    ParseOfDecimal(i);
    ParseOfDecimal(j);
  }

  lemma DigitsNest(s: string, s': string)
    requires s <= s' && AllDigits(s') && (|s| < |s'| ==> s'[|s|] == '_')
    ensures s == s'
  {
  }

  predicate Names(vars: seq<Variable>, n: string) {
    exists x :: x in vars && x.name == n
  }

  predicate DistinctNames(vars: seq<Variable>) {
    forall i, j | 0 <= i < j < |vars| :: vars[i].name != vars[j].name
  }

  lemma DistinctConcat(a: seq<Variable>, b: seq<Variable>)
    requires DistinctNames(a) && DistinctNames(b) && forall n :: !(Names(a, n) && Names(b, n))
    ensures DistinctNames(a + b)
  {
    forall i, j | 0 <= i < |a| && 0 <= j < |b| ensures a[i].name != b[j].name {
      assert Names(a, a[i].name);
      assert b[j] in b;
    }
  }

  lemma NamesConcat(a: seq<Variable>, b: seq<Variable>, n: string)
    ensures Names(a + b, n) <==> Names(a, n) || Names(b, n)
  {
  }

  // Encoding a value of a shape

  /** What encoding a value of a shape gives: variables, each under a name it claims, no two alike. */
  ghost predicate GoodWalk(shape: Shape, name: string, walked: Encoded) {
    walked.Vars? && DistinctNames(walked.vars) && walked.vars != []
    && forall x | x in walked.vars :: Claims(shape, name, x.name)
  }

  lemma {:induction false} WalkFits(shape: Shape, name: string, path: string, v: Value)
    requires Fits(shape, v) && Separable(shape)
    ensures WalkGoes(shape, name, path, v)
    decreases shape, 2
  {
    match shape
    case Record(fields) =>
      var keys := SortedNames(v.members.Keys);
      assert v.members == map[] <==> v.members.Keys == {};
      WalkFitsMembers(shape, name, path, v, keys);
      RecordWalks(shape, name, path, v, keys);
    case ListOf(item) =>
      WalkFitsItems(item, name, path, v.items, 0);
      ListWalks(item, name, path, v);
    case _ => LeafWalks(shape, name, path, v);
  }

  /** Encoding a value of a shape goes well exactly when its numbers are ones the encoding takes. */
  ghost predicate WalkGoes(shape: Shape, name: string, path: string, v: Value)
    requires Fits(shape, v)
  {
    if Bounded(shape, v) then GoodWalk(shape, name, Walk(name, path, v)) else Walk(name, path, v).Fault?
  }

  lemma LeafWalks(shape: Shape, name: string, path: string, v: Value)
    requires Fits(shape, v) && IsLeaf(shape)
    ensures WalkGoes(shape, name, path, v)
  {
  }

  lemma RecordWalks(shape: Shape, name: string, path: string, v: Value, keys: seq<string>)
    requires shape.Record? && Fits(shape, v) && keys == SortedNames(v.members.Keys) && keys != []
    requires MembersGo(shape, name, path, v, keys)
    ensures WalkGoes(shape, name, path, v)
  {
    hide Bounded, Separable, DistinctNames, WalkMembers, Member;
    assert Walk(name, path, v) == WalkMembers(name, path, v, keys);
    assert Bounded(shape, v) <==> forall k | k in keys :: Bounded(shape.fields[k], v.members[k]) by {
      BoundedMembers(shape, v);
    }
    var walked := Walk(name, path, v);
    if walked.Vars? {
      forall x | x in walked.vars ensures name + "_" <= x.name {
        var k :| k in keys && Claims(shape.fields[k], Member(name, k), x.name);
        MemberNamesBegin(shape.fields[k], name, k, x.name);
      }
    }
  }

  lemma MemberNamesBegin(shape: Shape, name: string, k: string, n: string)
    requires Claims(shape, Member(name, k), n)
    ensures name + "_" <= n
  {
  }

  lemma BoundedMembers(shape: Shape, v: Value)
    requires shape.Record? && Fits(shape, v)
    ensures Bounded(shape, v) <==> forall k | k in v.members :: Bounded(shape.fields[k], v.members[k])
  {
  }

  lemma ListWalks(item: Shape, name: string, path: string, v: Value)
    requires Fits(ListOf(item), v)
    requires ItemsGo(item, name, path, v.items, 0)
    ensures WalkGoes(ListOf(item), name, path, v)
  {
    hide Separable, WalkItems;
    assert IsListOfObjects(v.items) by { assert v.items != [] ==> v.items[0].Obj?; }
    if Bounded(ListOf(item), v) {
      var count := [Variable(name, Str(Decimal(|v.items|)), false)];
      var rest := WalkItems(name, path, v.items, 0).vars;
      forall n | Names(count, n) ensures !Names(rest, n) {
        forall x | x in rest ensures x.name != n {
          var j: nat :| Element(name, j) + "_" <= x.name;
          assert |n| < |x.name|;
        }
      }
      DistinctConcat(count, rest);
      assert Walk(name, path, v) == Vars(count + rest);
      forall x | x in rest ensures Claims(ListOf(item), name, x.name) {
        var j: nat :| Element(name, j) + "_" <= x.name;
        assert name + "_" <= Element(name, j) + "_";
      }
    }
  }

  /** What encoding some members of an object gives. */
  ghost predicate GoodMembers(shape: Shape, name: string, keys: seq<string>, walked: Encoded)
    requires shape.Record? && forall k | k in keys :: k in shape.fields
  {
    walked.Vars? && DistinctNames(walked.vars) && (keys != [] ==> walked.vars != [])
    && forall x | x in walked.vars :: exists k :: k in keys && Claims(shape.fields[k], Member(name, k), x.name)
  }

  ghost predicate MembersGo(shape: Shape, name: string, path: string, v: Value, keys: seq<string>)
    requires shape.Record? && Fits(shape, v) && forall k | k in keys :: k in v.members
  {
    if forall k | k in keys :: Bounded(shape.fields[k], v.members[k])
    then GoodMembers(shape, name, keys, WalkMembers(name, path, v, keys))
    else WalkMembers(name, path, v, keys).Fault?
  }

  lemma {:induction false} WalkFitsMembers(shape: Shape, name: string, path: string, v: Value, keys: seq<string>)
    requires shape.Record? && Fits(shape, v) && Separable(shape)
    requires Sorted(keys) && forall k | k in keys :: k in v.members
    ensures MembersGo(shape, name, path, v, keys)
    decreases shape, 1, |keys|
  {
    if keys != [] {
      var k, rest := keys[0], keys[1..];
      assert forall k' :: k' in keys <==> k' == k || k' in rest;
      WalkFits(shape.fields[k], Member(name, k), Inner(path, k), v.members[k]);
      WalkFitsMembers(shape, name, path, v, rest);
      MembersStep(shape, name, path, v, keys);
    }
  }

  lemma MembersStep(shape: Shape, name: string, path: string, v: Value, keys: seq<string>)
    requires shape.Record? && Fits(shape, v) && Separable(shape) && keys != []
    requires Sorted(keys) && forall k | k in keys :: k in v.members
    requires WalkGoes(shape.fields[keys[0]], Member(name, keys[0]), Inner(path, keys[0]), v.members[keys[0]])
    requires MembersGo(shape, name, path, v, keys[1..])
    ensures MembersGo(shape, name, path, v, keys)
  {
    hide Bounded, Separable, Walk, GoodWalk, GoodMembers, Sorted, Member, Inner;
    var k, rest := keys[0], keys[1..];
    assert forall k' :: k' in keys <==> k' == k || k' in rest;
    if forall k' | k' in keys :: Bounded(shape.fields[k'], v.members[k']) {
      MembersTogether(shape, name, path, v, keys);
    }
  }

  lemma MembersTogether(shape: Shape, name: string, path: string, v: Value, keys: seq<string>)
    requires shape.Record? && Fits(shape, v) && Separable(shape) && keys != []
    requires Sorted(keys) && forall k | k in keys :: k in v.members
    requires var k := keys[0];
      GoodWalk(shape.fields[k], Member(name, k), Walk(Member(name, k), Inner(path, k), v.members[k]))
    requires GoodMembers(shape, name, keys[1..], WalkMembers(name, path, v, keys[1..]))
    ensures GoodMembers(shape, name, keys, WalkMembers(name, path, v, keys))
  {
    var k, rest := keys[0], keys[1..];
    var a := Walk(Member(name, k), Inner(path, k), v.members[k]).vars;
    var b := WalkMembers(name, path, v, rest).vars;
    assert k !in rest by { LessIsTotal(k, k); }
    forall n ensures !(Names(a, n) && Names(b, n)) {
      if Names(a, n) && Names(b, n) {
        var x :| x in b && x.name == n;
        var k' :| k' in rest && Claims(shape.fields[k'], Member(name, k'), n);
        MembersApart(shape.fields, name, k, k', n);
      }
    }
    DistinctConcat(a, b);
    assert WalkMembers(name, path, v, keys) == Vars(a + b);
    forall x: Variable | x in a + b ensures exists k' ::
      k' in keys && Claims(shape.fields[k'], Member(name, k'), x.name) {
      if x in b {
        var k' :| k' in rest && Claims(shape.fields[k'], Member(name, k'), x.name);
        assert k' in keys;
      }
    }
  }

  /** What encoding the objects of a list, from the one numbered i on, gives. */
  ghost predicate GoodItems(name: string, i: nat, walked: Encoded) {
    walked.Vars? && DistinctNames(walked.vars)
    && forall x | x in walked.vars :: exists j: nat :: j >= i && Element(name, j) + "_" <= x.name
  }

  ghost predicate ItemsGo(item: Shape, name: string, path: string, items: seq<Value>, i: nat)
    requires forall j | 0 <= j < |items| :: Fits(item, items[j])
  {
    if forall j | 0 <= j < |items| :: Bounded(item, items[j])
    then GoodItems(name, i, WalkItems(name, path, items, i))
    else WalkItems(name, path, items, i).Fault?
  }

  lemma {:induction false} WalkFitsItems(item: Shape, name: string, path: string, items: seq<Value>, i: nat)
    requires item.Record? && Separable(item)
    requires forall j | 0 <= j < |items| :: items[j].Obj? && Fits(item, items[j])
    ensures ItemsGo(item, name, path, items, i)
    decreases item, 3, |items|
  {
    if items != [] {
      WalkFits(item, Element(name, i), path, items[0]);
      WalkFitsItems(item, name, path, items[1..], i + 1);
      ItemsStep(item, name, path, items, i);
    }
  }

  lemma ItemsStep(item: Shape, name: string, path: string, items: seq<Value>, i: nat)
    requires item.Record? && items != []
    requires forall j | 0 <= j < |items| :: items[j].Obj? && Fits(item, items[j])
    requires WalkGoes(item, Element(name, i), path, items[0])
    requires ItemsGo(item, name, path, items[1..], i + 1)
    ensures ItemsGo(item, name, path, items, i)
  {
    hide Fits, Bounded, Walk, GoodWalk, GoodItems;
    assert forall j | 0 < j < |items| :: items[j] == items[1..][j - 1];
    if forall j | 0 <= j < |items| :: Bounded(item, items[j]) {
      ItemsTogether(item, name, path, items, i);
    } else if Bounded(item, items[0]) {
      var j :| 0 <= j < |items| && !Bounded(item, items[j]);
      assert !Bounded(item, items[1..][j - 1]);
    }
  }

  lemma ItemsTogether(item: Shape, name: string, path: string, items: seq<Value>, i: nat)
    requires item.Record? && items != [] && items[0].Obj?
    requires GoodWalk(item, Element(name, i), Walk(Element(name, i), path, items[0]))
    requires GoodItems(name, i + 1, WalkItems(name, path, items[1..], i + 1))
    ensures GoodItems(name, i, WalkItems(name, path, items, i))
  {
    hide Walk, Element;
    var a := Walk(Element(name, i), path, items[0]).vars;
    var b := WalkItems(name, path, items[1..], i + 1).vars;
    forall n | Names(a, n) ensures !Names(b, n) {
      forall x | x in b ensures x.name != n {
        var j: nat :| j >= i + 1 && Element(name, j) + "_" <= x.name;
        if x.name == n {
          ElementsApart(name, i, j, n);
        }
      }
    }
    DistinctConcat(a, b);
    assert WalkItems(name, path, items, i) == Vars(a + b);
    forall x: Variable | x in a + b ensures exists j: nat :: j >= i && Element(name, j) + "_" <= x.name {
      if x in a {
        assert Element(name, i) + "_" <= x.name;
      } else {
        var j: nat :| j >= i + 1 && Element(name, j) + "_" <= x.name;
      }
    }
  }
}
