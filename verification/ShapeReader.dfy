/** Reading a derived value back from its variables, by the naming rule and the value's shape. */
module ShapeReader {
  import opened Order
  import opened Text
  import opened Values
  import opened DerivedVariables
  import opened Shapes

  /** The variables a server is set. */
  type Env = map<string, Value>

  /** Whether a member is set: its variable, or one of its members'. */
  predicate Present(shape: Shape, name: string, env: Env) {
    if shape.Record? then exists n :: n in env && name + "_" <= n else name in env
  }

  function TextAt(name: string, env: Env): string {
    if name in env && env[name].Str? then env[name].s else ""
  }

  function CountAt(name: string, env: Env): nat {
    var n := ParseWhole(TextAt(name, env));
    if n < 0 then 0 else n
  }

  function AsStrings(parts: seq<string>): (r: seq<Value>)
    ensures |r| == |parts| && forall i | 0 <= i < |parts| :: r[i] == Str(parts[i])
  {
    if parts == [] then [] else [Str(parts[0])] + AsStrings(parts[1..])
  }

  /** The value of a shape whose variables begin with a name. */
  function Read(shape: Shape, name: string, env: Env): Value
    decreases shape, 1
  {
    match shape
    case Text => if name in env then env[name] else Null
    case Texts => Arr(AsStrings(Split(TextAt(name, env), ',')))
    case Count => Num(ParseWhole(TextAt(name, env)) as real)
    case Record(fields) =>
      Obj(map k | k in fields && Present(fields[k], Member(name, k), env) :: Read(fields[k], Member(name, k), env))
    case ListOf(item) => Arr(ReadItems(item, name, env, CountAt(name, env)))
  }

  /** The first n objects of a list. */
  function ReadItems(item: Shape, name: string, env: Env, n: nat): (r: seq<Value>)
    ensures |r| == n && forall i | 0 <= i < n :: r[i] == Read(item, Element(name, i), env)
    decreases item, 2, n
  {
    if n == 0 then [] else ReadItems(item, name, env, n - 1) + [Read(item, Element(name, n - 1), env)]
  }

  /** The variables set are those of a value, as far as reading that value sees. */
  ghost predicate Agrees(shape: Shape, name: string, v: Value, env: Env)
    requires Fits(shape, v)
    decreases shape
  {
    match shape
    case Text => name in env && env[name] == v
    case Texts => name in env && env[name] == Str(Join(Strings(v.items), ','))
    case Count => name in env && env[name] == Str(Whole(v.n.Floor))
    case Record(fields) =>
      && (forall k | k in fields :: k in v.members <==> Present(fields[k], Member(name, k), env))
      && forall k | k in v.members :: Agrees(fields[k], Member(name, k), v.members[k], env)
    case ListOf(item) =>
      && name in env && env[name] == Str(Decimal(|v.items|))
      && forall i | 0 <= i < |v.items| :: Agrees(item, Element(name, i), v.items[i], env)
  }

  /** Variables that agree with a value read back as that value. */
  lemma {:induction false} ReadRecovers(shape: Shape, name: string, v: Value, env: Env)
    requires Fits(shape, v) && Agrees(shape, name, v, env)
    ensures Read(shape, name, env) == v
    decreases shape
  {
    match shape
    case Text =>
    case Texts =>
      SplitUndoesJoin(Strings(v.items), ',');
    case Count => ParseOfWhole(v.n.Floor);
    case Record(fields) =>
      forall k | k in v.members ensures Read(fields[k], Member(name, k), env) == v.members[k] {
        ReadRecovers(fields[k], Member(name, k), v.members[k], env);
      }
      var read := map k | k in fields && Present(fields[k], Member(name, k), env) ::
        Read(fields[k], Member(name, k), env);
      assert read == v.members;
    case ListOf(item) =>
      ParseOfDecimal(|v.items|);
      CountOfDecimal(|v.items|);
      forall i | 0 <= i < |v.items| ensures Read(item, Element(name, i), env) == v.items[i] {
        ReadRecovers(item, Element(name, i), v.items[i], env);
      }
      assert ReadItems(item, name, env, |v.items|) == v.items;
  }

  lemma CountOfDecimal(n: nat)
    ensures ParseWhole(Decimal(n)) == n
  {
    ParseOfWhole(n);
  }

  // The variables of a value agree with it

  /** Every variable is set. */
  ghost predicate AllSet(vars: seq<Variable>, env: Env) {
    forall x | x in vars :: x.name in env && env[x.name] == x.value
  }

  /** Of the names a value claims, only its own variables are set. */
  ghost predicate OnlySet(shape: Shape, name: string, vars: seq<Variable>, env: Env) {
    forall n | n in env && Claims(shape, name, n) :: Names(vars, n)
  }

  lemma {:induction false} WalkAgrees(shape: Shape, name: string, path: string, v: Value, env: Env)
    requires Fits(shape, v) && Separable(shape) && Walk(name, path, v).Vars?
    requires AllSet(Walk(name, path, v).vars, env) && OnlySet(shape, name, Walk(name, path, v).vars, env)
    ensures Agrees(shape, name, v, env)
    decreases shape
  {
    match shape
    case Record(fields) =>
      forall k | k in fields
        ensures k in v.members <==> Present(fields[k], Member(name, k), env)
        ensures k in v.members ==> Agrees(fields[k], Member(name, k), v.members[k], env)
      {
        if k in v.members {
          MemberIsSet(shape, name, path, v, env, k);
          WalkAgrees(fields[k], Member(name, k), Inner(path, k), v.members[k], env);
          WalkIsPresent(fields[k], Member(name, k), Inner(path, k), v.members[k], env);
        } else {
          AbsentIsUnset(shape, name, path, v, env, k);
        }
      }
    case ListOf(item) =>
      var vars := Walk(name, path, v).vars;
      assert vars[0] in vars;
      forall i | 0 <= i < |v.items| ensures Agrees(item, Element(name, i), v.items[i], env) {
        ItemIsSet(item, name, path, v, env, i);
        WalkAgrees(item, Element(name, i), path, v.items[i], env);
      }
    case _ => LeafIsSet(shape, name, path, v, env);
  }

  lemma LeafIsSet(shape: Shape, name: string, path: string, v: Value, env: Env)
    requires Fits(shape, v) && IsLeaf(shape) && Walk(name, path, v).Vars?
    requires AllSet(Walk(name, path, v).vars, env)
    ensures Agrees(shape, name, v, env)
  {
  }

  /** A value that encodes has a variable set. */
  lemma WalkIsPresent(shape: Shape, name: string, path: string, v: Value, env: Env)
    requires Fits(shape, v) && Separable(shape) && Walk(name, path, v).Vars?
    requires AllSet(Walk(name, path, v).vars, env)
    ensures Present(shape, name, env)
  {
    WalkFits(shape, name, path, v);
    var vars := Walk(name, path, v).vars;
    assert vars[0] in vars;
    if shape.ListOf? {
      assert vars[0].name == name;
    }
  }

  /** A value encodes, and one of its variables has the name. */
  ghost predicate EncodesTo(name: string, path: string, v: Value, n: string) {
    Walk(name, path, v).Vars? && Names(Walk(name, path, v).vars, n)
  }

  /** Each member's variables are among the object's. */
  lemma {:induction false} MembersHold(name: string, path: string, v: Value, keys: seq<string>, k: string)
    requires v.Obj? && (forall k | k in keys :: k in v.members) && k in keys
    requires WalkMembers(name, path, v, keys).Vars?
    ensures Walk(Member(name, k), Inner(path, k), v.members[k]).Vars?
    ensures forall x | x in Walk(Member(name, k), Inner(path, k), v.members[k]).vars ::
      x in WalkMembers(name, path, v, keys).vars
    decreases |keys|
  {
    if k != keys[0] {
      MembersHold(name, path, v, keys[1..], k);
    }
  }

  /** Each of the object's variables is a member's. */
  lemma {:induction false} MembersAreHeld(name: string, path: string, v: Value, keys: seq<string>, n: string)
    requires v.Obj? && forall k | k in keys :: k in v.members
    requires WalkMembers(name, path, v, keys).Vars? && Names(WalkMembers(name, path, v, keys).vars, n)
    ensures exists k :: k in keys && EncodesTo(Member(name, k), Inner(path, k), v.members[k], n)
    decreases |keys|
  {
    var a := Walk(Member(name, keys[0]), Inner(path, keys[0]), v.members[keys[0]]).vars;
    var b := WalkMembers(name, path, v, keys[1..]).vars;
    NamesConcat(a, b, n);
    if !Names(a, n) {
      MembersAreHeld(name, path, v, keys[1..], n);
      var k :| k in keys[1..] && EncodesTo(Member(name, k), Inner(path, k), v.members[k], n);
      assert k in keys;
    }
  }

  /** The member whose variable a claimed name is, when the name is set: the one that claims it. */
  lemma ClaimedIsMembers(shape: Shape, name: string, path: string, v: Value, env: Env, k: string, n: string)
    requires shape.Record? && Fits(shape, v) && Separable(shape) && Walk(name, path, v).Vars?
    requires OnlySet(shape, name, Walk(name, path, v).vars, env)
    requires k in shape.fields && n in env && Claims(shape.fields[k], Member(name, k), n)
    ensures k in v.members && EncodesTo(Member(name, k), Inner(path, k), v.members[k], n)
  {
    var keys := SortedNames(v.members.Keys);
    MemberNamesBegin(shape.fields[k], name, k, n);
    assert Names(Walk(name, path, v).vars, n);
    MembersAreHeld(name, path, v, keys, n);
    var k' :| k' in keys && EncodesTo(Member(name, k'), Inner(path, k'), v.members[k'], n);
    WalkFits(shape.fields[k'], Member(name, k'), Inner(path, k'), v.members[k']);
    if k != k' {
      MembersApart(shape.fields, name, k, k', n);
    }
  }

  lemma MemberIsSet(shape: Shape, name: string, path: string, v: Value, env: Env, k: string)
    requires shape.Record? && Fits(shape, v) && Separable(shape) && Walk(name, path, v).Vars?
    requires AllSet(Walk(name, path, v).vars, env) && OnlySet(shape, name, Walk(name, path, v).vars, env)
    requires k in v.members
    ensures var walked := Walk(Member(name, k), Inner(path, k), v.members[k]);
      walked.Vars? && AllSet(walked.vars, env) && OnlySet(shape.fields[k], Member(name, k), walked.vars, env)
  {
    hide Walk, Fits, Claims, Names, Separable, Member, Inner;
    FieldsOf(shape, v);
    MembersHoldAll(shape, name, path, v, k);
    var walked := Walk(Member(name, k), Inner(path, k), v.members[k]);
    forall n | n in env && Claims(shape.fields[k], Member(name, k), n) ensures Names(walked.vars, n) {
      ClaimedIsMembers(shape, name, path, v, env, k, n);
    }
  }

  lemma FieldsOf(shape: Shape, v: Value)
    requires shape.Record? && Fits(shape, v)
    ensures v.Obj? && forall k | k in v.members :: k in shape.fields
  {
  }

  lemma MembersHoldAll(shape: Shape, name: string, path: string, v: Value, k: string)
    requires shape.Record? && Fits(shape, v) && Walk(name, path, v).Vars? && k in v.members
    ensures Walk(Member(name, k), Inner(path, k), v.members[k]).Vars?
    ensures forall x | x in Walk(Member(name, k), Inner(path, k), v.members[k]).vars :: x in Walk(name, path, v).vars
  {
    MembersHold(name, path, v, SortedNames(v.members.Keys), k);
  }

  lemma AbsentIsUnset(shape: Shape, name: string, path: string, v: Value, env: Env, k: string)
    requires shape.Record? && Fits(shape, v) && Separable(shape) && Walk(name, path, v).Vars?
    requires OnlySet(shape, name, Walk(name, path, v).vars, env)
    requires k in shape.fields && k !in v.members
    ensures !Present(shape.fields[k], Member(name, k), env)
  {
    if Present(shape.fields[k], Member(name, k), env) {
      var n :| n in env && Claims(shape.fields[k], Member(name, k), n);
      ClaimedIsMembers(shape, name, path, v, env, k, n);
    }
  }

  lemma {:induction false} ItemsHold(name: string, path: string, items: seq<Value>, from: nat, i: nat)
    requires i < |items| && WalkItems(name, path, items, from).Vars?
    ensures Walk(Element(name, from + i), path, items[i]).Vars?
    ensures forall x | x in Walk(Element(name, from + i), path, items[i]).vars ::
      x in WalkItems(name, path, items, from).vars
    decreases |items|
  {
    if i > 0 {
      ItemsHold(name, path, items[1..], from + 1, i - 1);
    }
  }

  lemma {:induction false} ItemsAreHeld(name: string, path: string, items: seq<Value>, from: nat, n: string)
    requires WalkItems(name, path, items, from).Vars? && Names(WalkItems(name, path, items, from).vars, n)
    ensures exists i :: 0 <= i < |items| && EncodesTo(Element(name, from + i), path, items[i], n)
    decreases |items|
  {
    var a := Walk(Element(name, from), path, items[0]).vars;
    var b := WalkItems(name, path, items[1..], from + 1).vars;
    NamesConcat(a, b, n);
    if Names(a, n) {
      assert from + 0 == from;
    } else {
      ItemsAreHeld(name, path, items[1..], from + 1, n);
      var i :| 0 <= i < |items[1..]| && EncodesTo(Element(name, from + 1 + i), path, items[1..][i], n);
      assert items[1..][i] == items[i + 1] && from + 1 + i == from + (i + 1);
    }
  }

  lemma ItemIsSet(item: Shape, name: string, path: string, v: Value, env: Env, i: nat)
    requires Fits(ListOf(item), v) && Separable(ListOf(item)) && Walk(name, path, v).Vars?
    requires AllSet(Walk(name, path, v).vars, env) && OnlySet(ListOf(item), name, Walk(name, path, v).vars, env)
    requires i < |v.items|
    ensures var walked := Walk(Element(name, i), path, v.items[i]);
      walked.Vars? && AllSet(walked.vars, env) && OnlySet(item, Element(name, i), walked.vars, env)
  {
    ItemsHold(name, path, v.items, 0, i);
    var walked := Walk(Element(name, i), path, v.items[i]);
    forall n | n in env && Claims(item, Element(name, i), n) ensures Names(walked.vars, n) {
      ClaimedIsItems(item, name, path, v, env, i, n);
    }
  }

  lemma ClaimedIsItems(item: Shape, name: string, path: string, v: Value, env: Env, i: nat, n: string)
    requires Fits(ListOf(item), v) && Separable(ListOf(item)) && Walk(name, path, v).Vars?
    requires OnlySet(ListOf(item), name, Walk(name, path, v).vars, env)
    requires i < |v.items| && n in env && Claims(item, Element(name, i), n)
    requires Walk(Element(name, i), path, v.items[i]).Vars?
    ensures Names(Walk(Element(name, i), path, v.items[i]).vars, n)
  {
    hide Claims, Separable;
    ElementClaims(item, name, i, n);
    var count, rest := [Variable(name, Str(Decimal(|v.items|)), false)], WalkItems(name, path, v.items, 0).vars;
    assert Walk(name, path, v).vars == count + rest;
    NamesConcat(count, rest, n);
    ItemsAreHeld(name, path, v.items, 0, n);
    var j :| 0 <= j < |v.items| && EncodesTo(Element(name, 0 + j), path, v.items[j], n);
    WalkFits(item, Element(name, j), path, v.items[j]);
    RecordClaims(item, Element(name, j), n);
    ElementsApart(name, i, j, n);
  }

  lemma ElementClaims(item: Shape, name: string, i: nat, n: string)
    requires Claims(item, Element(name, i), n) && Separable(ListOf(item))
    ensures Claims(ListOf(item), name, n) && n != name && Element(name, i) + "_" <= n
    ensures item.Record? && Separable(item)
  {
    assert name + "_" <= Element(name, i) <= n;
    assert |n| > |name|;
  }

  lemma RecordClaims(item: Shape, name: string, n: string)
    requires item.Record? && Claims(item, name, n)
    ensures name + "_" <= n
  {
  }

  /** Exactly the variables of a list are set. */
  ghost predicate IsEnv(vars: seq<Variable>, env: Env) {
    AllSet(vars, env) && forall n | n in env :: Names(vars, n)
  }

  /** A server set exactly the variables of a value reads the value back. */
  lemma VariablesReadBack(shape: Shape, field: string, v: Value, env: Env)
    requires Fits(shape, v) && Separable(shape) && Bounded(shape, v)
    requires Walk(field, "", v).Vars? ==> IsEnv(Walk(field, "", v).vars, env)
    ensures Walk(field, "", v).Vars? && DistinctNames(Walk(field, "", v).vars)
    ensures Read(shape, field, env) == v
  {
    WalkFits(shape, field, "", v);
    WalkAgrees(shape, field, "", v, env);
    ReadRecovers(shape, field, v, env);
  }
}
