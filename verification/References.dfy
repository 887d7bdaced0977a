/** References between types: where a name is looked up, and the operation that lists a reference's target. */
module References {
  import opened Basics
  import opened Order
  import opened Text

  datatype TypeRef = TypeRef(name: string, isArray: bool, isArrayOfArrays: bool, isMap: bool)

  datatype Argument = Argument(name: string, isQuery: bool, required: bool)

  /** A service clause: none, one that admits service callers, or one that requires them. */
  datatype Clause = NoClause | Admits | Requires

  datatype Operation = Operation(
    name: string, httpMethod: string, restPath: string, result: TypeRef, arguments: seq<Argument>,
    manualRoute: bool, webhook: bool, isPublic: bool, callers: Clause)

  datatype OperationSet = OperationSet(name: string, callers: Clause, operations: seq<Operation>)

  datatype TypeDef = TypeDef(name: string, isTrait: bool)

  datatype Import = Import(package: string, types: seq<string>)

  /** A service's schema. `others` are the names of its enums, unions and scalars. */
  datatype Schema = Schema(
    name: string, isAPI: bool, imports: seq<Import>, types: map<string, TypeDef>, others: set<string>,
    sets: seq<OperationSet>)

  /** A schema's dependencies by service; one may not have been loaded. */
  type Dependencies = map<string, Option<Schema>>

  predicate Loaded(dependencies: Dependencies, service: string) {
    service in dependencies && dependencies[service].Some?
  }

  // Where a name is looked up

  /** One schema of a lookup, with the service it is of: "" for the schema that holds the reference. */
  datatype Scope = Scope(service: string, schema: Schema)

  function ServiceNameForPackage(package: string): string {
    AfterLast(package, '/')
  }

  /** The service of the first import that lists a name. */
  function ImportedService(imports: seq<Import>, name: string): string {
    if imports == [] then ""
    else if name in imports[0].types then ServiceNameForPackage(imports[0].package)
    else ImportedService(imports[1..], name)
  }

  /** The dependency an import names for a name, when there is one. */
  function Imported(schema: Option<Schema>, dependencies: Dependencies, name: string): string {
    if schema.None? then ""
    else
      var service := ImportedService(schema.value.imports, name);
      if service != schema.value.name && Loaded(dependencies, service) then service else ""
  }

  function OwnScopes(schema: Option<Schema>, dependencies: Dependencies, name: string): seq<Scope> {
    if schema.None? then []
    else
      var imported := Imported(schema, dependencies, name);
      [Scope("", schema.value)] + if imported == "" then [] else [Scope(imported, dependencies[imported].value)]
  }

  /** The loaded dependencies of a list, without the imported one. */
  function OtherScopes(dependencies: Dependencies, names: seq<string>, imported: string): seq<Scope> {
    if names == [] then []
    else
      var last := names[|names| - 1];
      OtherScopes(dependencies, names[..|names| - 1], imported)
      + if last != imported && Loaded(dependencies, last) then [Scope(last, dependencies[last].value)] else []
  }

  ghost function ScopesOf(schema: Option<Schema>, dependencies: Dependencies, name: string): seq<Scope> {
    OwnScopes(schema, dependencies, name)
    + OtherScopes(dependencies, SortedNames(dependencies.Keys), Imported(schema, dependencies, name))
  }

  lemma OtherScopesNext(
    dependencies: Dependencies, names: seq<string>, i: nat, imported: string,
    own: seq<Scope>, before: seq<Scope>, after: seq<Scope>)
    requires i < |names| && before == own + OtherScopes(dependencies, names[..i], imported)
    requires after == before
      + if names[i] != imported && Loaded(dependencies, names[i]) then [Scope(names[i], dependencies[names[i]].value)] else []
    ensures after == own + OtherScopes(dependencies, names[..i + 1], imported)
  {
    assert names[..i + 1][..i] == names[..i];
  }

  lemma NoOthers(dependencies: Dependencies, imported: string)
    ensures OtherScopes(dependencies, [], imported) == []
  {
  }

  method LookupScopes(schema: Option<Schema>, dependencies: Dependencies, name: string) returns (out: seq<Scope>)
    ensures out == ScopesOf(schema, dependencies, name)
  {
    hide OtherScopes, SortedNames, Sorted;
    out := [];
    var imported := "";
    if schema.Some? {
      out := out + [Scope("", schema.value)];
      var service := ImportedService(schema.value.imports, name);
      if service != "" && service != schema.value.name && Loaded(dependencies, service) {
        imported := service;
        out := out + [Scope(service, dependencies[service].value)];
      }
    }
    assert imported == Imported(schema, dependencies, name) && out == OwnScopes(schema, dependencies, name);
    ghost var own := out;
    var names := SortNames(dependencies.Keys);
    NoOthers(dependencies, imported);
    assert names[..0] == [] && own + [] == own;
    for i := 0 to |names|
      invariant out == own + OtherScopes(dependencies, names[..i], imported)
    {
      ghost var before := out;
      if names[i] != imported && Loaded(dependencies, names[i]) {
        out := out + [Scope(names[i], dependencies[names[i]].value)];
      }
      OtherScopesNext(dependencies, names, i, imported, own, before, out);
    }
    assert names[..|names|] == names;
  }

  ghost predicate IsOther(dependencies: Dependencies, imported: string, service: string) {
    service != imported && Loaded(dependencies, service)
  }

  /** Scopes that are the dependencies of some names, but for the imported one, each once and in order. */
  ghost predicate AreOthers(others: seq<Scope>, dependencies: Dependencies, names: seq<string>, imported: string) {
    && (forall x :: x in others <==> x.service in names && IsScopeOf(x, dependencies, imported))
    && forall i, j | 0 <= i < j < |others| :: Less(others[i].service, others[j].service)
  }

  ghost predicate IsScopeOf(x: Scope, dependencies: Dependencies, imported: string) {
    IsOther(dependencies, imported, x.service) && x.schema == dependencies[x.service].value
  }

  lemma {:induction false} OtherScopesAre(dependencies: Dependencies, names: seq<string>, imported: string)
    requires Sorted(names)
    ensures AreOthers(OtherScopes(dependencies, names, imported), dependencies, names, imported)
  {
    hide Less;
    if names != [] {
      var front, last := names[..|names| - 1], names[|names| - 1];
      OtherScopesAre(dependencies, front, imported);
      assert forall n :: n in names <==> n in front || n == last;
      var others := OtherScopes(dependencies, front, imported);
      forall i | 0 <= i < |others| ensures Less(others[i].service, last) {
        assert others[i] in others;
      }
    }
  }

  /** The scopes are the schema, then the dependency an import names, then every other loaded dependency,
      each once and in name order. */
  lemma ScopesAreDependencies(schema: Schema, dependencies: Dependencies, name: string)
    ensures var scopes := ScopesOf(Some(schema), dependencies, name);
      var imported := Imported(Some(schema), dependencies, name);
      var first := if imported == "" then 1 else 2;
      && first <= |scopes| && scopes[0] == Scope("", schema)
      && (imported != "" ==> Loaded(dependencies, imported) && scopes[1] == Scope(imported, dependencies[imported].value))
      && (forall x :: x in scopes[first..] <==> IsScopeOf(x, dependencies, imported))
      && forall i, j | first <= i < j < |scopes| :: Less(scopes[i].service, scopes[j].service)
  {
    hide Less, Sorted, OtherScopes, Loaded;
    var imported := Imported(Some(schema), dependencies, name);
    var names := SortedNames(dependencies.Keys);
    OtherScopesAre(dependencies, names, imported);
    var own, others := OwnScopes(Some(schema), dependencies, name), OtherScopes(dependencies, names, imported);
    var scopes := own + others;
    assert scopes[|own|..] == others;
    forall x | IsScopeOf(x, dependencies, imported) ensures x.service in names {
      LoadedIsKnown(dependencies, x.service);
    }
    forall i, j | |own| <= i < j < |scopes| ensures Less(scopes[i].service, scopes[j].service) {
      assert scopes[i] == others[i - |own|] && scopes[j] == others[j - |own|];
    }
    if imported != "" {
      ImportedIsLoaded(schema, dependencies, name);
    }
  }

  lemma LoadedIsKnown(dependencies: Dependencies, service: string)
    requires Loaded(dependencies, service)
    ensures service in dependencies.Keys
  {
  }

  lemma ImportedIsLoaded(schema: Schema, dependencies: Dependencies, name: string)
    requires Imported(Some(schema), dependencies, name) != ""
    ensures Loaded(dependencies, Imported(Some(schema), dependencies, name))
  {
  }

  // The target of a reference

  datatype Target = Type(def: TypeDef, scope: Scope) | NotAType | Undeclared

  predicate Declares(schema: Schema, name: string) {
    name in schema.types || name in schema.others
  }

  /** What the first scope that declares a name says it is. */
  function FirstDeclared(scopes: seq<Scope>, name: string): Target {
    if scopes == [] then Undeclared
    else
      var schema := scopes[0].schema;
      if name in schema.types then
        if schema.types[name].isTrait then NotAType else Type(schema.types[name], scopes[0])
      else if name in schema.others then NotAType
      else FirstDeclared(scopes[1..], name)
  }

  ghost function TargetOf(schema: Schema, dependencies: Dependencies, name: string): Target {
    FirstDeclared(ScopesOf(Some(schema), dependencies, name), name)
  }

  method ReferenceTarget(schema: Schema, dependencies: Dependencies, name: string) returns (r: Target)
    ensures r == TargetOf(schema, dependencies, name)
  {
    hide ScopesOf;
    var scopes := LookupScopes(Some(schema), dependencies, name);
    for i := 0 to |scopes|
      invariant FirstDeclared(scopes[i..], name) == FirstDeclared(scopes, name)
    {
      var s := scopes[i].schema;
      assert scopes[i..][0] == scopes[i] && scopes[i..][1..] == scopes[i + 1..];
      if name in s.types {
        return if s.types[name].isTrait then NotAType else Type(s.types[name], scopes[i]);
      }
      if name in s.others {
        return NotAType;
      }
    }
    r := Undeclared;
  }

  lemma {:induction false} FirstOfDeclared(a: seq<Scope>, b: seq<Scope>, name: string)
    ensures FirstDeclared(a + b, name) ==
      if FirstDeclared(a, name).Undeclared? then FirstDeclared(b, name) else FirstDeclared(a, name)
  {
    if a == [] {
      assert a + b == b;
    } else {
      assert (a + b)[0] == a[0] && (a + b)[1..] == a[1..] + b;
      FirstOfDeclared(a[1..], b, name);
    }
  }

  /** The dependency an import names declares the name, and both dependencies hold it. */
  ghost predicate ImportDeclares(schema: Schema, dependencies: Dependencies, more: Dependencies, name: string) {
    var imported := Imported(Some(schema), dependencies, name);
    && imported != "" && Imported(Some(schema), more, name) == imported
    && Loaded(dependencies, imported) && Loaded(more, imported) && more[imported] == dependencies[imported]
    && Declares(dependencies[imported].value, name)
  }

  /** Adding dependencies does not move the target of a name that the schema declares, or that the dependency
      its import names declares. So a loader with that one dependency and a generator with all of them agree. */
  lemma {:induction false} TargetIsStable(schema: Schema, dependencies: Dependencies, more: Dependencies, name: string)
    requires Declares(schema, name) || ImportDeclares(schema, dependencies, more, name)
    ensures SameDeclaration(TargetOf(schema, more, name), TargetOf(schema, dependencies, name))
  {
    hide OtherScopes, SortedNames, Imported;
    TargetIsOwn(schema, dependencies, name);
    TargetIsOwn(schema, more, name);
  }

  ghost predicate SameDeclaration(a: Target, b: Target) {
    a == b && !a.Undeclared?
  }

  /** Where the schema or the dependency its import names declares a name, what they say is the target. */
  lemma TargetIsOwn(schema: Schema, dependencies: Dependencies, name: string)
    ensures var own := FirstDeclared(OwnScopes(Some(schema), dependencies, name), name);
      !own.Undeclared? ==> TargetOf(schema, dependencies, name) == own
    ensures var own := FirstDeclared(OwnScopes(Some(schema), dependencies, name), name);
      var imported := Imported(Some(schema), dependencies, name);
      own == if Declares(schema, name) || imported == "" then FirstDeclared([Scope("", schema)], name)
             else FirstDeclared([Scope(imported, dependencies[imported].value)], name)
  {
    hide OtherScopes, SortedNames;
    var imported := Imported(Some(schema), dependencies, name);
    var own := OwnScopes(Some(schema), dependencies, name);
    FirstOfDeclared(own, OtherScopes(dependencies, SortedNames(dependencies.Keys), imported), name);
    if imported != "" {
      FirstOfDeclared([Scope("", schema)], [Scope(imported, dependencies[imported].value)], name);
    } else {
      assert own == [Scope("", schema)];
    }
  }

  // The operation that lists a target

  /** Where an operation is: its set, and its place in the set. */
  datatype Place = Place(inSet: nat, at: nat)

  predicate IsPlace(schema: Schema, p: Place) {
    p.inSet < |schema.sets| && p.at < |schema.sets[p.inSet].operations|
  }

  function OperationAt(schema: Schema, p: Place): Operation
    requires IsPlace(schema, p)
  {
    schema.sets[p.inSet].operations[p.at]
  }

  /** A GET that returns a list of the target, one level and not a map. */
  predicate ListsTarget(op: Operation, target: string) {
    && ToLower(op.httpMethod) == "get"
    && op.result.name == target && op.result.isArray && !op.result.isArrayOfArrays && !op.result.isMap
  }

  /** The service clause that applies to an operation: its own, or its set's unless it is public. */
  function EffectiveCallers(callers: Clause, op: Operation): Clause {
    if op.callers != NoClause then op.callers else if op.isPublic then NoClause else callers
  }

  /** Whether a UI may call an operation without an argument, as an end user. */
  predicate IsCallable(callers: Clause, op: Operation) {
    && (forall i | 0 <= i < |op.arguments| :: op.arguments[i].isQuery && !op.arguments[i].required)
    && '{' !in op.restPath
    && !op.manualRoute && !op.webhook
    && EffectiveCallers(callers, op) != Requires
  }

  predicate IsEligible(schema: Schema, target: string, p: Place) {
    && IsPlace(schema, p)
    && ListsTarget(OperationAt(schema, p), target)
    && IsCallable(schema.sets[p.inSet].callers, OperationAt(schema, p))
  }

  predicate IsNamed(schema: Schema, setName: Option<string>, opName: string, p: Place) {
    && IsPlace(schema, p)
    && (setName.Some? ==> schema.sets[p.inSet].name == setName.value)
    && OperationAt(schema, p).name == opName
  }

  ghost predicate Distinct(places: seq<Place>) {
    forall i, j | 0 <= i < j < |places| :: places[i] != places[j]
  }

  /** Whether a place comes before the one at k of the set at i. */
  predicate IsBefore(p: Place, i: nat, k: nat) {
    p.inSet < i || (p.inSet == i && p.at < k)
  }

  lemma NextPlace(i: nat, k: nat)
    ensures forall p :: IsBefore(p, i, k + 1) <==> IsBefore(p, i, k) || p == Place(i, k)
  {
  }

  method EligibleOptions(schema: Schema, target: string) returns (eligible: seq<Place>)
    ensures Distinct(eligible) && forall p :: p in eligible <==> IsEligible(schema, target, p)
  {
    hide ListsTarget, IsCallable;
    eligible := [];
    for i := 0 to |schema.sets|
      invariant Distinct(eligible)
      invariant forall p :: p in eligible <==> IsEligible(schema, target, p) && IsBefore(p, i, 0)
    {
      var s := schema.sets[i];
      for k := 0 to |s.operations|
        invariant Distinct(eligible)
        invariant forall p :: p in eligible <==> IsEligible(schema, target, p) && IsBefore(p, i, k)
      {
        NextPlace(i, k);
        ghost var before := eligible;
        if ListsTarget(s.operations[k], target) && IsCallable(s.callers, s.operations[k]) {
          eligible := eligible + [Place(i, k)];
        }
        assert IsEligible(schema, target, Place(i, k)) <==> eligible != before;
        assert forall p :: p in eligible <==> p in before || (p == Place(i, k) && IsEligible(schema, target, p));
      }
    }
  }

  method NamedOptions(schema: Schema, setName: Option<string>, opName: string) returns (found: seq<Place>)
    ensures Distinct(found) && forall p :: p in found <==> IsNamed(schema, setName, opName, p)
  {
    found := [];
    for i := 0 to |schema.sets|
      invariant Distinct(found)
      invariant forall p :: p in found <==> IsNamed(schema, setName, opName, p) && IsBefore(p, i, 0)
    {
      var s := schema.sets[i];
      if setName.Some? && s.name != setName.value {
        continue;
      }
      for k := 0 to |s.operations|
        invariant Distinct(found)
        invariant forall p :: p in found <==> IsNamed(schema, setName, opName, p) && IsBefore(p, i, k)
      {
        NextPlace(i, k);
        ghost var before := found;
        if s.operations[k].name == opName {
          found := found + [Place(i, k)];
        }
        assert IsNamed(schema, setName, opName, Place(i, k)) <==> found != before;
        assert forall p :: p in found <==> p in before || (p == Place(i, k) && IsNamed(schema, setName, opName, p));
      }
    }
  }

  // The operation a reference's options are

  /** The operation that lists a reference's targets: of the schema, or of the dependency that declares
      the target. */
  datatype Options = OfSchema(place: Place) | OfDependency(place: Place) | NoOptions

  ghost predicate OnlyEligible(schema: Schema, target: string, p: Place) {
    IsEligible(schema, target, p) && forall q | IsEligible(schema, target, q) :: q == p
  }

  ghost predicate OnlyNamed(schema: Schema, setName: Option<string>, opName: string, p: Place) {
    IsNamed(schema, setName, opName, p) && forall q | IsNamed(schema, setName, opName, q) :: q == p
  }

  /** Unsaid, the options are the only eligible operation of the schema; the dependency is searched only
      when the schema has none. There are none exactly when the schema searched has none or several. */
  ghost predicate AreUnsaid(schema: Schema, dep: Option<Schema>, name: string, target: string, r: Options) {
    match r
    case OfSchema(p) => OnlyEligible(schema, name, p)
    case OfDependency(p) =>
      dep.Some? && OnlyEligible(dep.value, target, p) && forall q :: !IsEligible(schema, name, q)
    case NoOptions =>
      && (forall p :: !OnlyEligible(schema, name, p))
      && ((forall q :: !IsEligible(schema, name, q)) && dep.Some? ==> forall p :: !OnlyEligible(dep.value, target, p))
  }

  /** Named, they are the only operation of the name, which must be eligible; again the dependency is
      searched only when the schema has none of the name. */
  ghost predicate AreNamed(
    schema: Schema, dep: Option<Schema>, name: string, target: string, setName: Option<string>, opName: string, r: Options)
  {
    match r
    case OfSchema(p) => OnlyNamed(schema, setName, opName, p) && IsEligible(schema, name, p)
    case OfDependency(p) =>
      && dep.Some? && OnlyNamed(dep.value, setName, opName, p) && IsEligible(dep.value, target, p)
      && forall q :: !IsNamed(schema, setName, opName, q)
    case NoOptions =>
      && (forall p :: !(OnlyNamed(schema, setName, opName, p) && IsEligible(schema, name, p)))
      && ((forall q :: !IsNamed(schema, setName, opName, q)) && dep.Some? ==>
            forall p :: !(OnlyNamed(dep.value, setName, opName, p) && IsEligible(dep.value, target, p)))
  }

  /** The dependency whose operations may list a target: the API that declares it. */
  function OptionsDependency(schema: Schema, dependencies: Dependencies, service: string): Option<Schema> {
    if service != "" && service != schema.name && Loaded(dependencies, service) && dependencies[service].value.isAPI
    then dependencies[service]
    else None
  }

  /** A list without repeats has one element exactly when it has only one. */
  lemma SinglePlace(places: seq<Place>)
    requires Distinct(places)
    ensures |places| == 1 ==> places[0] in places && forall q | q in places :: q == places[0]
    ensures |places| > 1 ==> forall p :: p in places ==> exists q :: q in places && q != p
    ensures places == [] ==> forall q :: q !in places
    ensures places != [] ==> places[0] in places
  {
    if |places| > 1 {
      assert places[0] in places && places[1] in places && places[0] != places[1];
      forall p | p in places ensures exists q :: q in places && q != p {
        assert places[0] != p || places[1] != p;
      }
    }
  }

  method UnsaidOptions(schema: Schema, dep: Option<Schema>, name: string, target: string) returns (r: Options)
    ensures AreUnsaid(schema, dep, name, target, r)
  {
    hide IsEligible, Distinct;
    var eligible := EligibleOptions(schema, name);
    SinglePlace(eligible);
    if eligible == [] && dep.Some? {
      var theirs := EligibleOptions(dep.value, target);
      SinglePlace(theirs);
      return if |theirs| == 1 then OfDependency(theirs[0]) else NoOptions;
    }
    r := if |eligible| == 1 then OfSchema(eligible[0]) else NoOptions;
  }

  /** Whether an operation listed in a schema is one a reference may use. */
  method MayUse(schema: Schema, target: string, p: Place) returns (ok: bool)
    requires IsPlace(schema, p)
    ensures ok == IsEligible(schema, target, p)
  {
    var s, op := schema.sets[p.inSet], OperationAt(schema, p);
    ok := ListsTarget(op, target) && IsCallable(s.callers, op);
  }

  lemma NamedIsPlace(schema: Schema, setName: Option<string>, opName: string, p: Place)
    requires IsNamed(schema, setName, opName, p)
    ensures IsPlace(schema, p)
  {
  }

  method NamedAs(schema: Schema, dep: Option<Schema>, name: string, target: string, setName: Option<string>,
      opName: string)
    returns (r: Options)
    ensures AreNamed(schema, dep, name, target, setName, opName, r)
  {
    hide IsEligible, IsNamed, Distinct;
    var found := NamedOptions(schema, setName, opName);
    SinglePlace(found);
    if found == [] && dep.Some? {
      var theirs := NamedOptions(dep.value, setName, opName);
      SinglePlace(theirs);
      if |theirs| != 1 {
        return NoOptions;
      }
      NamedIsPlace(dep.value, setName, opName, theirs[0]);
      var ok := MayUse(dep.value, target, theirs[0]);
      return if ok then OfDependency(theirs[0]) else NoOptions;
    }
    if |found| != 1 {
      return NoOptions;
    }
    NamedIsPlace(schema, setName, opName, found[0]);
    var ok := MayUse(schema, name, found[0]);
    r := if ok then OfSchema(found[0]) else NoOptions;
  }

  /** What is before and after the first separator. */
  function Cut(s: string, sep: char): (r: (string, Option<string>))
    ensures sep !in r.0 && s == if r.1.None? then r.0 else r.0 + [sep] + r.1.value
  {
    if s == "" then ("", None)
    else if s[0] == sep then ("", Some(s[1..]))
    else
      var rest := Cut(s[1..], sep);
      ([s[0]] + rest.0, rest.1)
  }

  /** Finds the operation a reference's options name, `Set.operation` or the operation alone, or, unsaid,
      the one operation that lists the target. */
  method ReferenceOptions(
    schema: Schema, dependencies: Dependencies, name: string, options: string, target: TypeDef, service: string)
    returns (r: Options)
    ensures var dep, named := OptionsDependency(schema, dependencies, service), Cut(options, '.');
      if options == "" then AreUnsaid(schema, dep, name, target.name, r)
      else if named.1.None? then AreNamed(schema, dep, name, target.name, None, options, r)
      else AreNamed(schema, dep, name, target.name, Some(named.0), named.1.value, r)
  {
    hide AreUnsaid, AreNamed;
    var dep := OptionsDependency(schema, dependencies, service);
    if options == "" {
      r := UnsaidOptions(schema, dep, name, target.name);
      return;
    }
    var named := Cut(options, '.');
    if named.1.None? {
      r := NamedAs(schema, dep, name, target.name, None, options);
    } else {
      r := NamedAs(schema, dep, name, target.name, Some(named.0), named.1.value);
    }
  }
}
