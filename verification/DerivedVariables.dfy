/** The environment variables that the value of a derived config field is encoded as. */
module DerivedVariables {
  import opened Order
  import opened Text
  import opened Values

  /** One environment variable. `secret` marks a secret member's. */
  datatype Variable = Variable(name: string, value: Value, secret: bool)

  datatype Encoded = Vars(vars: seq<Variable>) | Fault

  /** The largest whole number a double holds exactly with every smaller one. */
  const MAX_WHOLE := 0x20_0000_0000_0000

  // Names

  function ToUpper(c: char): char {
    if IsLower(c) then 'A' + (c - 'a') else c
  }

  /** What the character at i adds to a segment: itself in upper case, after an underscore where a word starts. */
  function SegmentPiece(member: string, i: nat): string
    requires i < |member|
  {
    (if IsUpper(member[i]) && i > 0 && (IsLower(member[i - 1]) || IsDigit(member[i - 1])) then "_" else "")
    + [ToUpper(member[i])]
  }

  function SegmentFrom(member: string, i: nat): string
    requires i <= |member|
    decreases |member| - i
  {
    if i == |member| then "" else SegmentPiece(member, i) + SegmentFrom(member, i + 1)
  }

  /** A member's part of a variable's name, in upper snake case. */
  function Segment(member: string): string {
    SegmentFrom(member, 0)
  }

  lemma Associates(a: string, b: string, c: string)
    ensures a + b + c == a + (b + c)
  {
  }

  method BuildSegment(member: string) returns (r: string)
    ensures r == Segment(member)
  {
    hide IsUpper, IsLower, IsDigit, ToUpper;
    r := "";
    for i := 0 to |member|
      invariant Segment(member) == r + SegmentFrom(member, i)
    {
      ghost var before, piece := r, SegmentPiece(member, i);
      if IsUpper(member[i]) && i > 0 && (IsLower(member[i - 1]) || IsDigit(member[i - 1])) {
        r := r + "_";
      }
      r := r + [ToUpper(member[i])];
      assert r == before + piece;
      Associates(before, piece, SegmentFrom(member, i + 1));
    }
  }

  /** The variable of the member at a dotted path of a field. */
  function VariableName(field: string, path: string): string {
    NameOfSegments(field, Split(path, '.'))
  }

  function NameOfSegments(field: string, segments: seq<string>): string {
    if segments == [] then field
    else NameOfSegments(field, segments[..|segments| - 1]) + "_" + Segment(segments[|segments| - 1])
  }

  method BuildVariableName(field: string, path: string) returns (name: string)
    ensures name == VariableName(field, path)
  {
    var segments := Split(path, '.');
    name := field;
    for i := 0 to |segments|
      invariant name == NameOfSegments(field, segments[..i])
    {
      assert segments[..i + 1][..i] == segments[..i];
      var segment := BuildSegment(segments[i]);
      name := name + "_" + segment;
    }
    assert segments[..|segments|] == segments;
  }

  /** The members that hold a secret. */
  predicate SecretMember(path: string) {
    path == "credential.key" || path == "r2.token"
  }

  // Encoding

  function Member(name: string, key: string): string {
    name + "_" + Segment(key)
  }

  function Inner(path: string, key: string): string {
    if path == "" then key else path + "." + key
  }

  function Element(name: string, i: nat): string {
    name + "_" + Decimal(i)
  }

  predicate IsListOfObjects(items: seq<Value>) {
    items == [] || items[0].Obj?
  }

  /** What a list of strings holds: a string without a comma, or a reference. */
  predicate IsListed(v: Value) {
    IsReference(v) || (v.Str? && ',' !in v.s)
  }

  predicate HasReference(items: seq<Value>) {
    exists i :: 0 <= i < |items| && IsReference(items[i])
  }

  function Strings(items: seq<Value>): (r: seq<string>)
    ensures |r| == |items| && forall i | 0 <= i < |items| && items[i].Str? :: r[i] == items[i].s
  {
    if items == [] then [] else [if items[0].Str? then items[0].s else ""] + Strings(items[1..])
  }

  /** A list that holds references, joined with commas into one concatenation, which holds no other. */
  function JoinedParts(items: seq<Value>): seq<Value> {
    if items == [] then []
    else
      var last := items[|items| - 1];
      var before := if |items| == 1 then [] else JoinedParts(items[..|items| - 1]) + [Str(",")];
      before + if last.Concat? then last.parts else [last]
  }

  function Listed(items: seq<Value>): Value {
    if HasReference(items) then Concat(JoinedParts(items)) else Str(Join(Strings(items), ','))
  }

  predicate IsWhole(n: real) {
    n == n.Floor as real && -(MAX_WHOLE as real) <= n <= MAX_WHOLE as real
  }

  /** The variables of a value: name and path are its variable's name and its dotted path. */
  ghost function Walk(name: string, path: string, v: Value): Encoded
    decreases v, 1
  {
    match v
    case Obj(m) => if m == map[] then Fault else WalkMembers(name, path, v, SortedNames(m.Keys))
    case Arr(items) =>
      if IsListOfObjects(items) then
        match WalkItems(name, path, items, 0)
        case Fault => Fault
        case Vars(vars) => Vars([Variable(name, Str(Decimal(|items|)), false)] + vars)
      else if forall i | 0 <= i < |items| :: IsListed(items[i]) then Vars([Variable(name, Listed(items), false)])
      else Fault
    case Num(n) => if IsWhole(n) then Vars([Variable(name, Str(Whole(n.Floor)), false)]) else Fault
    case Null => Fault
    case Bool(_) => Fault
    case _ => Vars([Variable(name, v, SecretMember(path))])
  }

  ghost function Append(a: Encoded, b: Encoded): Encoded {
    if a.Vars? && b.Vars? then Vars(a.vars + b.vars) else Fault
  }

  ghost function WalkMembers(name: string, path: string, v: Value, keys: seq<string>): Encoded
    requires v.Obj? && forall k | k in keys :: k in v.members
    decreases v, 0, |keys|
  {
    if keys == [] then Vars([])
    else
      Append(Walk(Member(name, keys[0]), Inner(path, keys[0]), v.members[keys[0]]),
             WalkMembers(name, path, v, keys[1..]))
  }

  /** The objects of a list, from the one numbered i on. */
  ghost function WalkItems(name: string, path: string, items: seq<Value>, i: nat): Encoded
    decreases items, 0
  {
    if items == [] then Vars([])
    else if !items[0].Obj? then Fault
    else Append(Walk(Element(name, i), path, items[0]), WalkItems(name, path, items[1..], i + 1))
  }

  /** Appends the variables of a value as it walks it. */
  class Walker {
    var out: seq<Variable>

    constructor ()
      ensures out == []
    {
      out := [];
    }

    method Add(name: string, value: Value, secret: bool)
      modifies this
      ensures out == old(out) + [Variable(name, value, secret)]
    {
      out := out + [Variable(name, value, secret)];
    }

    method Visit(name: string, path: string, v: Value) returns (ok: bool)
      modifies this
      ensures var walked := Walk(name, path, v);
        ok == walked.Vars? && (ok ==> out == old(out) + walked.vars)
      decreases v, 1
    {
      hide WalkMembers, WalkItems, Listed, SecretMember, Whole, Decimal;
      match v
      case Obj(m) =>
        if m == map[] {
          return false;
        }
        var keys := SortNames(m.Keys);
        ok := VisitMembers(name, path, v, keys);
      case Arr(items) =>
        if IsListOfObjects(items) {
          Add(name, Str(Decimal(|items|)), false);
          ok := VisitItems(name, path, items, 0);
        } else {
          ok := VisitList(name, items);
        }
      case Num(n) =>
        ok := IsWhole(n);
        if ok {
          Add(name, Str(Whole(n.Floor)), false);
        }
      case Null => ok := false;
      case Bool(_) => ok := false;
      case _ =>
        Add(name, v, SecretMember(path));
        ok := true;
    }

    method VisitMembers(name: string, path: string, v: Value, keys: seq<string>) returns (ok: bool)
      requires v.Obj? && forall k | k in keys :: k in v.members
      modifies this
      ensures var walked := WalkMembers(name, path, v, keys);
        ok == walked.Vars? && (ok ==> out == old(out) + walked.vars)
      decreases v, 0, |keys|
    {
      hide Walk, Segment;
      if keys == [] {
        return true;
      }
      var segment := BuildSegment(keys[0]);
      ok := Visit(name + "_" + segment, Inner(path, keys[0]), v.members[keys[0]]);
      if ok {
        ok := VisitMembers(name, path, v, keys[1..]);
      }
    }

    method VisitItems(name: string, path: string, items: seq<Value>, i: nat) returns (ok: bool)
      modifies this
      ensures var walked := WalkItems(name, path, items, i);
        ok == walked.Vars? && (ok ==> out == old(out) + walked.vars)
      decreases items, 0
    {
      hide Walk, Element;
      if items == [] {
        return true;
      }
      if !items[0].Obj? {
        return false;
      }
      ok := Visit(Element(name, i), path, items[0]);
      if ok {
        ok := VisitItems(name, path, items[1..], i + 1);
      }
    }

    method VisitList(name: string, items: seq<Value>) returns (ok: bool)
      modifies this
      ensures ok <==> forall i | 0 <= i < |items| :: IsListed(items[i])
      ensures ok ==> out == old(out) + [Variable(name, Listed(items), false)]
    {
      var referenced := false;
      for i := 0 to |items|
        invariant out == old(out)
        invariant forall j | 0 <= j < i :: IsListed(items[j])
        invariant referenced == HasReference(items[..i])
      {
        assert items[..i + 1] == items[..i] + [items[i]];
        if IsReference(items[i]) {
          referenced := true;
          assert items[..i + 1][i] == items[i];
        } else if !items[i].Str? || ',' in items[i].s {
          return false;
        } else {
          assert forall j | 0 <= j < i + 1 && IsReference(items[..i + 1][j]) :: items[..i][j] == items[..i + 1][j];
        }
      }
      assert items[..|items|] == items;
      if !referenced {
        Add(name, Str(Join(Strings(items), ',')), false);
        return true;
      }
      var joined: seq<Value> := [];
      for i := 0 to |items|
        invariant out == old(out)
        invariant joined == JoinedParts(items[..i])
      {
        assert items[..i + 1][..i] == items[..i];
        if i > 0 {
          joined := joined + [Str(",")];
        }
        joined := joined + if items[i].Concat? then items[i].parts else [items[i]];
      }
      assert items[..|items|] == items;
      Add(name, Concat(joined), false);
      ok := true;
    }
  }

  predicate SortedByName(vars: seq<Variable>) {
    forall i, j | 0 <= i < j < |vars| :: !Less(vars[j].name, vars[i].name)
  }

  /** What encoding a derived field's value gives: the variables of its JSON form, sorted by name. */
  ghost predicate IsDerivation(field: string, value: Value, r: Encoded) {
    && (r.Vars? <==> JsonForm(value).Ok? && Walk(field, "", JsonForm(value).value).Vars?)
    && (r.Vars? ==>
          SortedByName(r.vars) && multiset(r.vars) == multiset(Walk(field, "", JsonForm(value).value).vars))
  }

  method Derive(field: string, value: Value) returns (r: Encoded)
    ensures IsDerivation(field, value, r)
  {
    var form := JsonForm(value);
    if form.Malformed? {
      return Fault;
    }
    var walker := new Walker();
    var ok := walker.Visit(field, "", form.value);
    if !ok {
      return Fault;
    }
    assert walker.out == Walk(field, "", form.value).vars;
    var sorted := SortVariables(walker.out);
    r := Vars(sorted);
  }

  method SortVariables(vars: seq<Variable>) returns (r: seq<Variable>)
    ensures SortedByName(r) && multiset(r) == multiset(vars)
  {
    r := [];
    for i := 0 to |vars|
      invariant SortedByName(r) && multiset(r) == multiset(vars[..i])
    {
      assert vars[..i + 1] == vars[..i] + [vars[i]];
      r := InsertVariable(r, vars[i]);
    }
    assert vars[..|vars|] == vars;
  }

  function InsertVariable(vars: seq<Variable>, v: Variable): (r: seq<Variable>)
    requires SortedByName(vars)
    ensures SortedByName(r) && multiset(r) == multiset(vars) + multiset{v}
  {
    if vars == [] then [v]
    else if Less(v.name, vars[0].name) then
      InsertFirst(vars, v);
      [v] + vars
    else
      assert vars == [vars[0]] + vars[1..];
      var rest := InsertVariable(vars[1..], v);
      InsertLater(vars, v, rest);
      [vars[0]] + rest
  }

  lemma InsertFirst(vars: seq<Variable>, v: Variable)
    requires SortedByName(vars) && vars != [] && Less(v.name, vars[0].name)
    ensures SortedByName([v] + vars)
  {
    LessIsTotal(v.name, vars[0].name);
    forall i | 0 < i < |vars| && Less(vars[i].name, v.name) ensures false {
      LessIsTransitive(vars[i].name, v.name, vars[0].name);
    }
  }

  lemma InsertLater(vars: seq<Variable>, v: Variable, rest: seq<Variable>)
    requires SortedByName(vars) && vars != [] && !Less(v.name, vars[0].name)
    requires SortedByName(rest) && multiset(rest) == multiset(vars[1..]) + multiset{v}
    ensures SortedByName([vars[0]] + rest)
  {
    hide Less;
    forall i | 0 <= i < |rest| ensures !Less(rest[i].name, vars[0].name) {
      assert rest[i] in multiset(rest);
    }
  }
}
