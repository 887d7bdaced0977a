/** The names of the config fields edges derive, and of an API's callers field. */
module FieldNames {
  import opened Text
  import opened DerivedVariables
  import opened DerivedContracts
  import opened DerivedFields

  /** One character of a service's name in upper snake case. */
  function EnvChar(c: char): char {
    if IsUpper(c) || IsLower(c) || IsDigit(c) then ToUpper(c) else '_'
  }

  /** A service's name in upper snake case. */
  function EnvName(service: string): (r: string)
    ensures |r| == |service| && forall i | 0 <= i < |r| :: r[i] == EnvChar(service[i])
  {
    if service == "" then "" else EnvName(service[..|service| - 1]) + [EnvChar(service[|service| - 1])]
  }

  method BuildEnvName(service: string) returns (r: string)
    ensures r == EnvName(service)
  {
    r := "";
    for i := 0 to |service|
      invariant r == EnvName(service[..i])
    {
      assert service[..i + 1][..i] == service[..i];
      if IsUpper(service[i]) || IsLower(service[i]) || IsDigit(service[i]) {
        r := r + [ToUpper(service[i])];
      } else {
        r := r + "_";
      }
    }
    assert service[..|service|] == service;
  }

  /** What the core adds to a service's name for the field an edge of a kind to it fills. */
  function Suffix(kind: EdgeKind): string {
    match kind
    case SQL => "_DATABASE"
    case Bucket => "_BUCKET"
    case MemoryStore => "_MEMORY_STORE"
    case _ => "_SERVICE"
  }

  /** The field an edge of a kind to a service fills, by the core's templates. */
  function DefaultField(kind: EdgeKind, service: string): string {
    if kind == Site then service else EnvName(service) + Suffix(kind)
  }

  const CALLERS := "_CALLERS"

  function CallersField(service: string): string {
    EnvName(service) + CALLERS
  }

  lemma OneUnderscore(i: nat)
    requires 0 < i < |CALLERS|
    ensures CALLERS[i] != '_'
  {
  }

  /** A derived field claims an API's callers field exactly when it is that field, or claims the API's own
      name in upper snake case. */
  lemma CallersFieldIsClaimed(field: string, api: string)
    ensures DerivedFieldClaims(field, CallersField(api)) <==>
      field == CallersField(api) || DerivedFieldClaims(field, EnvName(api))
  {
    var name, whole := EnvName(api), CallersField(api);
    if field + "_" <= whole {
      assert whole[|field|] == (field + "_")[|field|] == '_';
      if |field| > |name| {
        assert whole[|field|] == CALLERS[|field| - |name|];
        OneUnderscore(|field| - |name|);
      } else {
        assert field == whole[..|field|] == name[..|field|];
        if |field| < |name| {
          assert name[|field|] == whole[|field|];
          assert name[..|field| + 1] == field + "_";
        }
      }
    }
    if field == name {
      assert whole[..|name| + 1] == field + "_";
    }
    if field + "_" <= name {
      assert whole[..|field| + 1] == name[..|field| + 1] == field + "_";
    }
  }

  /** No field an edge to an API fills claims that API's callers field, so a server that serves the API
      and calls it too holds both. */
  lemma OwnFieldsLeaveCallers(kind: EdgeKind, api: string)
    requires kind != Site
    ensures !DerivedFieldClaims(DefaultField(kind, api), CallersField(api))
  {
    var field, name := DefaultField(kind, api), EnvName(api);
    CallersFieldIsClaimed(field, api);
    assert field[|name| + 1] == Suffix(kind)[1] != 'C';
    assert CallersField(api)[|name| + 1] == CALLERS[1] == 'C';
  }

  /** An edge to another service may: the field of a call to `shop` claims the callers field of
      `shop-service-api`. */
  lemma AnotherFieldClaimsCallers()
    ensures DerivedFieldClaims(DefaultField(HTTP, "shop"), CallersField("shop-service-api"))
  {
  }

  /** A service's name in upper snake case is as long as the name: its letters as capitals, its digits, and an
      underscore for anything else. */
  lemma EnvNameIsUpper(service: string, i: nat)
    requires i < |service|
    ensures |EnvName(service)| == |service|
    ensures var c, d := service[i], EnvName(service)[i];
      d as int == if 'a' <= c <= 'z' then c as int - 32 else if 'A' <= c <= 'Z' || '0' <= c <= '9' then c as int else 95
  {
  }

  /** The names the documentation gives. */
  lemma DocumentedNames()
    ensures DefaultField(SQL, "shop-db") == "SHOP_DB_DATABASE"
    ensures DefaultField(HTTP, "shop-api") == "SHOP_API_SERVICE"
    ensures CallersField("shop-api") == "SHOP_API_CALLERS"
  {
    hide EnvName;
    DocumentedServices();
  }

  lemma DocumentedServices()
    ensures EnvName("shop-db") == "SHOP_DB" && EnvName("shop-api") == "SHOP_API"
  {
  }
}
