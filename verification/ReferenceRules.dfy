/** What the lookup of a reference goes by: the first import that lists a name, the first scope that declares it,
    and what keeps an operation from being a reference's options. */
module ReferenceRules {
  import opened Basics
  import opened Text
  import opened References

  // Imports

  /** Whether an import is the first that lists a name. */
  predicate IsFirstImport(imports: seq<Import>, i: int, name: string) {
    0 <= i < |imports| && name in imports[i].types && forall j | 0 <= j < i :: name !in imports[j].types
  }

  /** The service an import is of: the last part of its package. */
  ghost predicate ImportsFrom(imports: seq<Import>, name: string, service: string) {
    exists i :: IsFirstImport(imports, i, name) && IsLastPart(service, imports[i].package, '/')
  }

  lemma FirstImportLists(imports: seq<Import>, name: string, service: string)
    requires imports != [] && name in imports[0].types
    ensures ImportsFrom(imports, name, service) <==> IsLastPart(service, imports[0].package, '/')
  {
    hide IsLastPart;
    assert IsFirstImport(imports, 0, name);
    assert forall i | IsFirstImport(imports, i, name) :: i == 0;
  }

  lemma LaterImportLists(imports: seq<Import>, name: string, service: string)
    requires imports != [] && name !in imports[0].types
    ensures ImportsFrom(imports, name, service) <==> ImportsFrom(imports[1..], name, service)
  {
    hide IsLastPart;
    if i :| IsFirstImport(imports, i, name) && IsLastPart(service, imports[i].package, '/') {
      assert IsFirstImport(imports[1..], i - 1, name);
    }
    if i :| IsFirstImport(imports[1..], i, name) && IsLastPart(service, imports[1..][i].package, '/') {
      assert IsFirstImport(imports, i + 1, name);
    }
  }

  lemma {:induction false} ImportedIsFirst(imports: seq<Import>, name: string, service: string)
    requires service != ""
    ensures ImportsFrom(imports, name, service) <==> ImportedService(imports, name) == service
    decreases |imports|
  {
    hide IsLastPart, ImportsFrom;
    if imports == [] {
      NoneImports(name, service);
    } else if name in imports[0].types {
      FirstImportLists(imports, name, service);
      AfterLastIsLastPart(imports[0].package, '/');
    } else {
      LaterImportLists(imports, name, service);
      ImportedIsFirst(imports[1..], name, service);
    }
  }

  lemma NoneImports(name: string, service: string)
    ensures !ImportsFrom([], name, service)
  {
  }

  /** The second scope of a lookup is the dependency that the first import to list the name is of, when it is
      loaded and another service. */
  lemma ImportedIsOfFirstImport(schema: Schema, dependencies: Dependencies, name: string, service: string)
    requires service != ""
    ensures Imported(Some(schema), dependencies, name) == service <==>
      ImportsFrom(schema.imports, name, service) && service != schema.name && Loaded(dependencies, service)
  {
    hide ImportsFrom;
    ImportedIsFirst(schema.imports, name, service);
  }

  // Targets

  predicate IsFirstScope(scopes: seq<Scope>, i: int, name: string) {
    0 <= i < |scopes| && Declares(scopes[i].schema, name) && forall j | 0 <= j < i :: !Declares(scopes[j].schema, name)
  }

  /** What a scope that declares a name says it is: a type, unless it is a trait or no type. */
  predicate Says(scope: Scope, name: string, r: Target) {
    match r
    case Type(def, from) =>
      from == scope && name in scope.schema.types && scope.schema.types[name] == def && !def.isTrait
    case NotAType =>
      if name in scope.schema.types then scope.schema.types[name].isTrait else name in scope.schema.others
    case Undeclared => false
  }

  lemma {:induction false} FirstScopeSays(scopes: seq<Scope>, name: string)
    ensures var r := FirstDeclared(scopes, name);
      if r.Undeclared? then forall scope | scope in scopes :: !Declares(scope.schema, name)
      else exists i :: IsFirstScope(scopes, i, name) && Says(scopes[i], name, r)
  {
    if scopes != [] {
      if Declares(scopes[0].schema, name) {
        assert IsFirstScope(scopes, 0, name) && Says(scopes[0], name, FirstDeclared(scopes, name));
      } else {
        FirstScopeSays(scopes[1..], name);
        if i :| IsFirstScope(scopes[1..], i, name) && Says(scopes[1..][i], name, FirstDeclared(scopes[1..], name)) {
          assert IsFirstScope(scopes, i + 1, name) && scopes[i + 1] == scopes[1..][i];
        }
      }
    }
  }

  /** The target of a reference is what the first scope of its lookup that declares the name says it is. */
  lemma TargetIsOfFirstScope(schema: Schema, dependencies: Dependencies, name: string)
    ensures var scopes, r := ScopesOf(Some(schema), dependencies, name), TargetOf(schema, dependencies, name);
      if r.Undeclared? then forall scope | scope in scopes :: !Declares(scope.schema, name)
      else exists i :: IsFirstScope(scopes, i, name) && Says(scopes[i], name, r)
  {
    FirstScopeSays(ScopesOf(Some(schema), dependencies, name), name);
  }

  // Operations

  predicate IsGet(httpMethod: string) {
    |httpMethod| == 3 && httpMethod[0] in "gG" && httpMethod[1] in "eE" && httpMethod[2] in "tT"
  }

  /** Why an operation cannot be a reference's options: it does not get a list of the target, it takes something
      from its caller, it is not routed as the rest are, or it requires a service as its caller. */
  datatype Reason =
    | NotAGet | NotAList | OfAnother | TakesAnArgument(at: nat) | TakesAPathPart(at: nat) | RoutedByHand | IsAWebhook
    | RequiresAService

  predicate Refuses(reason: Reason, clause: Clause, op: Operation, target: string) {
    match reason
    case NotAGet => !IsGet(op.httpMethod)
    case NotAList => !op.result.isArray || op.result.isArrayOfArrays || op.result.isMap
    case OfAnother => op.result.name != target
    case TakesAnArgument(i) => i < |op.arguments| && (op.arguments[i].required || !op.arguments[i].isQuery)
    case TakesAPathPart(i) => i < |op.restPath| && op.restPath[i] == '{'
    case RoutedByHand => op.manualRoute
    case IsAWebhook => op.webhook
    case RequiresAService => op.callers == Requires || (op.callers == NoClause && !op.isPublic && clause == Requires)
  }

  lemma GetInAnyCase(httpMethod: string)
    ensures ToLower(httpMethod) == "get" <==> IsGet(httpMethod)
  {
    var lower := ToLower(httpMethod);
    if |lower| == 3 {
      assert lower == [LowerOf(httpMethod[0]), LowerOf(httpMethod[1]), LowerOf(httpMethod[2])];
      assert forall c :: LowerOf(c) == 'g' <==> c in "gG";
      assert forall c :: LowerOf(c) == 'e' <==> c in "eE";
      assert forall c :: LowerOf(c) == 't' <==> c in "tT";
    }
  }

  /** An operation is eligible exactly when there is no reason to refuse it. */
  lemma EligibleUnlessRefused(schema: Schema, target: string, p: Place)
    requires IsPlace(schema, p)
    ensures IsEligible(schema, target, p) <==>
      forall reason :: !Refuses(reason, schema.sets[p.inSet].callers, OperationAt(schema, p), target)
  {
    hide ToLower, IsGet;
    var op, clause := OperationAt(schema, p), schema.sets[p.inSet].callers;
    GetInAnyCase(op.httpMethod);
    if IsEligible(schema, target, p) {
      forall reason ensures !Refuses(reason, clause, op, target) {}
    } else {
      var reason := ReasonFor(clause, op, target);
    }
  }

  /** A reason to refuse an operation that is not eligible. */
  lemma ReasonFor(clause: Clause, op: Operation, target: string) returns (reason: Reason)
    requires !(ListsTarget(op, target) && IsCallable(clause, op))
    ensures Refuses(reason, clause, op, target)
  {
    hide ToLower, IsGet;
    GetInAnyCase(op.httpMethod);
    if !ListsTarget(op, target) {
      return if op.result.name != target then OfAnother else if IsGet(op.httpMethod) then NotAList else NotAGet;
    }
    if i: nat :| i < |op.arguments| && !(op.arguments[i].isQuery && !op.arguments[i].required) {
      return TakesAnArgument(i);
    }
    if i: nat :| i < |op.restPath| && op.restPath[i] == '{' {
      return TakesAPathPart(i);
    }
    reason := if op.manualRoute then RoutedByHand else if op.webhook then IsAWebhook else RequiresAService;
  }

  /** The dependency whose operations are searched is the API that declares the target, when it is loaded and
      another service. */
  lemma OptionsAreOfAnAPI(schema: Schema, dependencies: Dependencies, service: string, dep: Schema)
    ensures OptionsDependency(schema, dependencies, service) == Some(dep) <==>
      && service !in {"", schema.name} && service in dependencies && dependencies[service] == Some(dep) && dep.isAPI
  {
  }

  // How many there are

  ghost function EligiblePlaces(schema: Schema, target: string): set<Place> {
    set i, k |
      0 <= i < |schema.sets| && 0 <= k < |schema.sets[i].operations| && IsEligible(schema, target, Place(i, k)) ::
      Place(i, k)
  }

  ghost function NamedPlaces(schema: Schema, setName: Option<string>, opName: string): set<Place> {
    set i, k |
      0 <= i < |schema.sets| && 0 <= k < |schema.sets[i].operations| && IsNamed(schema, setName, opName, Place(i, k)) ::
      Place(i, k)
  }

  ghost predicate IsOnly(places: set<Place>, p: Place) {
    p in places && |places| == 1
  }

  lemma OneOf(places: set<Place>, p: Place)
    ensures IsOnly(places, p) <==> places == {p}
  {
    if IsOnly(places, p) {
      SubsetSize({p}, places);
    }
  }

  lemma OnlyEligibleIsOnly(schema: Schema, target: string, p: Place)
    ensures OnlyEligible(schema, target, p) <==> IsOnly(EligiblePlaces(schema, target), p)
    ensures EligiblePlaces(schema, target) == {} <==> forall q :: !IsEligible(schema, target, q)
  {
    var places := EligiblePlaces(schema, target);
    forall q ensures IsEligible(schema, target, q) <==> q in places {
      assert q == Place(q.inSet, q.at);
    }
    OneOf(places, p);
  }

  lemma OnlyNamedIsOnly(schema: Schema, setName: Option<string>, opName: string, p: Place)
    ensures OnlyNamed(schema, setName, opName, p) <==> IsOnly(NamedPlaces(schema, setName, opName), p)
    ensures NamedPlaces(schema, setName, opName) == {} <==> forall q :: !IsNamed(schema, setName, opName, q)
  {
    var places := NamedPlaces(schema, setName, opName);
    forall q ensures IsNamed(schema, setName, opName, q) <==> q in places {
      assert q == Place(q.inSet, q.at);
    }
    OneOf(places, p);
  }

  /** Unsaid, the options are the one eligible operation there is in the schema; or, when it has none, the one there
      is in the dependency. */
  lemma UnsaidByCount(schema: Schema, dep: Option<Schema>, name: string, target: string, r: Options)
    requires AreUnsaid(schema, dep, name, target, r)
    ensures var own := EligiblePlaces(schema, name);
      var theirs := if dep.Some? && own == {} then EligiblePlaces(dep.value, target) else {};
      && (forall p :: r == OfSchema(p) <==> IsOnly(own, p))
      && (forall p :: r == OfDependency(p) <==> IsOnly(theirs, p))
  {
    hide IsEligible, EligiblePlaces;
    forall p, s, t: string ensures OnlyEligible(s, t, p) <==> IsOnly(EligiblePlaces(s, t), p) {
      OnlyEligibleIsOnly(s, t, p);
    }
    OnlyEligibleIsOnly(schema, name, Place(0, 0));
    forall p, q, s, t: string | IsOnly(EligiblePlaces(s, t), p) && IsOnly(EligiblePlaces(s, t), q) ensures p == q {
      OneOf(EligiblePlaces(s, t), p);
    }
  }

  /** Named, they are the one operation of the name there is in the schema, or, when it has none, in the dependency;
      and only when it is eligible. */
  lemma NamedByCount(schema: Schema, dep: Option<Schema>, name: string, target: string, setName: Option<string>,
      opName: string, r: Options)
    requires AreNamed(schema, dep, name, target, setName, opName, r)
    ensures var own := NamedPlaces(schema, setName, opName);
      var theirs := if dep.Some? && own == {} then NamedPlaces(dep.value, setName, opName) else {};
      && (forall p :: r == OfSchema(p) <==> IsOnly(own, p) && IsEligible(schema, name, p))
      && (forall p :: r == OfDependency(p) <==> IsOnly(theirs, p) && dep.Some? && IsEligible(dep.value, target, p))
  {
    hide IsEligible, IsNamed, NamedPlaces;
    forall p, s ensures OnlyNamed(s, setName, opName, p) <==> IsOnly(NamedPlaces(s, setName, opName), p) {
      OnlyNamedIsOnly(s, setName, opName, p);
    }
    OnlyNamedIsOnly(schema, setName, opName, Place(0, 0));
    forall p, q, s | IsOnly(NamedPlaces(s, setName, opName), p) && IsOnly(NamedPlaces(s, setName, opName), q)
      ensures p == q
    {
      OneOf(NamedPlaces(s, setName, opName), p);
    }
  }
}
