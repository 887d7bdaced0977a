/** The contract of a callers field: the issuers of service credentials an API's server accepts, and its checks. */
module ServiceAuth {
  import opened Basics
  import opened Values
  import opened DerivedContracts

  /** Reads the kid of a literal key, when it is a key: of a JWK's JSON, and of a PEM. */
  datatype KeyReader = KeyReader(ofJwk: string -> Option<string>, ofPem: string -> Option<string>)

  predicate IsText(v: Value) {
    v.Str? && v.s != ""
  }

  predicate HasText(v: Value, name: string)
    requires v.Obj?
  {
    name in v.members && IsText(v.members[name])
  }

  // Lists of strings

  predicate IsListMember(v: Value, allowed: set<string>) {
    IsText(v) && ',' !in v.s && (allowed != {} ==> v.s in allowed)
  }

  /** A non-empty list of distinct strings without commas, each an allowed one when some are named. */
  predicate IsLiteralList(v: Value, allowed: set<string>) {
    && v.Arr? && v.items != []
    && (forall i | 0 <= i < |v.items| :: IsListMember(v.items[i], allowed))
    && forall i, j | 0 <= i < j < |v.items| :: v.items[i] != v.items[j]
  }

  method CheckLiteralList(v: Value, allowed: set<string>) returns (ok: bool)
    ensures ok == IsLiteralList(v, allowed) && (ok ==> v.Arr?)
  {
    if !v.Arr? || v.items == [] {
      return false;
    }
    var seen: set<string> := {};
    for i := 0 to |v.items|
      invariant forall j | 0 <= j < i :: IsListMember(v.items[j], allowed) && v.items[j].s in seen
      invariant forall s | s in seen :: exists j :: 0 <= j < i && v.items[j] == Str(s)
      invariant forall j, k | 0 <= j < k < i :: v.items[j] != v.items[k]
    {
      if !IsListMember(v.items[i], allowed) || v.items[i].s in seen {
        return false;
      }
      seen := seen + {v.items[i].s};
    }
    ok := true;
  }

  // Keys

  /** A public key: its JWK or its PEM, exactly one; a literal one is a key. */
  predicate IsKey(v: Value, reader: KeyReader) {
    && HasOnly(v, {"jwk", "pem"})
    && ("jwk" in v.members <==> "pem" !in v.members)
    && IsStringMember(KeyOf(v))
    && (KeyOf(v).Str? ==> KidOf(v, reader).Some?)
  }

  function KeyOf(v: Value): Value {
    if !v.Obj? then Null
    else if "pem" in v.members then v.members["pem"]
    else if "jwk" in v.members then v.members["jwk"]
    else Null
  }

  /** The kid of a literal key. */
  function KidOf(v: Value, reader: KeyReader): Option<string> {
    var key := KeyOf(v);
    if !key.Str? then None
    else if "pem" in v.members then reader.ofPem(key.s)
    else reader.ofJwk(key.s)
  }

  /** A non-empty list of keys, no two literal ones with one kid. */
  predicate AreKeys(v: Value, reader: KeyReader) {
    && v.Arr? && v.items != []
    && (forall i | 0 <= i < |v.items| :: IsKey(v.items[i], reader))
    && forall i, j | 0 <= i < j < |v.items| && KidOf(v.items[i], reader).Some? ::
         KidOf(v.items[i], reader) != KidOf(v.items[j], reader)
  }

  method CheckKeys(v: Value, reader: KeyReader) returns (ok: bool)
    ensures ok == AreKeys(v, reader)
  {
    hide IsKey, KidOf, KeyOf;
    if !v.Arr? || v.items == [] {
      return false;
    }
    var kids: set<string> := {};
    for i := 0 to |v.items|
      invariant forall j | 0 <= j < i :: IsKey(v.items[j], reader)
      invariant forall j | 0 <= j < i && KidOf(v.items[j], reader).Some? :: KidOf(v.items[j], reader).value in kids
      invariant forall kid | kid in kids :: exists j :: 0 <= j < i && KidOf(v.items[j], reader) == Some(kid)
      invariant forall j, k | 0 <= j < k < i && KidOf(v.items[j], reader).Some? ::
        KidOf(v.items[j], reader) != KidOf(v.items[k], reader)
    {
      if !IsKey(v.items[i], reader) {
        return false;
      }
      var kid := KidOf(v.items[i], reader);
      if kid.Some? {
        if kid.value in kids {
          return false;
        }
        kids := kids + {kid.value};
      }
    }
    ok := true;
  }

  // Callers

  /** A caller: three members, of which `serves` lists names of APIs. */
  predicate IsCaller(v: Value) {
    && HasOnly(v, {"subject", "deployable", "serves"})
    && Required(v, "subject")
    && HasText(v, "deployable")
    && "serves" in v.members && IsLiteralList(v.members["serves"], {})
  }

  /** A non-empty list of callers, no two with one literal subject. */
  predicate AreCallers(v: Value) {
    && v.Arr? && v.items != []
    && (forall i | 0 <= i < |v.items| :: IsCaller(v.items[i]))
    && forall i, j | 0 <= i < j < |v.items| && v.items[i].members["subject"].Str? ::
         v.items[i].members["subject"] != v.items[j].members["subject"]
  }

  method CheckCaller(v: Value) returns (ok: bool)
    ensures ok == IsCaller(v)
  {
    if !HasOnly(v, {"subject", "deployable", "serves"}) || !Required(v, "subject") || !HasText(v, "deployable") {
      return false;
    }
    if "serves" !in v.members {
      return false;
    }
    ok := CheckLiteralList(v.members["serves"], {});
  }

  method CheckCallers(v: Value) returns (ok: bool)
    ensures ok == AreCallers(v)
  {
    hide IsLiteralList, IsStringMember;
    if !v.Arr? || v.items == [] {
      return false;
    }
    var subjects: set<string> := {};
    for i := 0 to |v.items|
      invariant forall j | 0 <= j < i :: IsCaller(v.items[j])
      invariant forall j | 0 <= j < i && v.items[j].members["subject"].Str? ::
        v.items[j].members["subject"].s in subjects
      invariant forall s | s in subjects :: exists j :: 0 <= j < i && v.items[j].members["subject"] == Str(s)
      invariant forall j, k | 0 <= j < k < i && v.items[j].members["subject"].Str? ::
        v.items[j].members["subject"] != v.items[k].members["subject"]
    {
      ok := CheckCaller(v.items[i]);
      if !ok {
        return;
      }
      var subject := v.items[i].members["subject"];
      if subject.Str? {
        if subject.s in subjects {
          return false;
        }
        subjects := subjects + {subject.s};
      }
    }
    ok := true;
  }

  // Issuers

  const ISSUER_MEMBERS := {
    "issuer", "issuerAliases", "audience", "algorithms", "jwksUrl", "keys", "subjectClaim", "maxLifetimeSeconds", "callers"}

  const ALGORITHMS := {"RS256", "ES256", "EdDSA"}

  /** One more than the largest whole number of seconds a lifetime may hold. */
  const LIFETIME_LIMIT := 0x8000_0000_0000_0000

  predicate IsLifetime(v: Value) {
    v.Num? && v.n == v.n.Floor as real && 1.0 <= v.n < LIFETIME_LIMIT as real
  }

  /** The aliases of an issuer: distinct literals, none of them the issuer. */
  predicate AreAliases(v: Value, issuer: Value) {
    IsLiteralList(v, {}) && issuer !in v.items
  }

  /** An issuer of service credentials. */
  predicate IsIssuer(v: Value, reader: KeyReader) {
    && HasOnly(v, ISSUER_MEMBERS)
    && Required(v, "issuer")
    && ("issuerAliases" in v.members ==> AreAliases(v.members["issuerAliases"], v.members["issuer"]))
    && Required(v, "audience")
    && "algorithms" in v.members && IsLiteralList(v.members["algorithms"], ALGORITHMS)
    && ("jwksUrl" in v.members <==> "keys" !in v.members)
    && Optional(v, "jwksUrl")
    && ("keys" in v.members ==> AreKeys(v.members["keys"], reader))
    && ("subjectClaim" in v.members ==> IsText(v.members["subjectClaim"]))
    && ("maxLifetimeSeconds" in v.members ==> IsLifetime(v.members["maxLifetimeSeconds"]))
    && "callers" in v.members && AreCallers(v.members["callers"])
  }

  method CheckIssuer(v: Value, reader: KeyReader) returns (ok: bool)
    ensures ok == IsIssuer(v, reader)
  {
    hide IsLiteralList, IsStringMember, AreKeys, AreCallers;
    if !HasOnly(v, ISSUER_MEMBERS) || !Required(v, "issuer") {
      return false;
    }
    if "issuerAliases" in v.members {
      ok := CheckLiteralList(v.members["issuerAliases"], {});
      if !ok || v.members["issuer"] in v.members["issuerAliases"].items {
        return false;
      }
    }
    if !Required(v, "audience") || "algorithms" !in v.members {
      return false;
    }
    ok := CheckLiteralList(v.members["algorithms"], ALGORITHMS);
    if !ok {
      return;
    }
    if "jwksUrl" in v.members {
      if "keys" in v.members || !IsStringMember(v.members["jwksUrl"]) {
        return false;
      }
    } else if "keys" in v.members {
      ok := CheckKeys(v.members["keys"], reader);
      if !ok {
        return;
      }
    } else {
      return false;
    }
    if "subjectClaim" in v.members && !IsText(v.members["subjectClaim"]) {
      return false;
    }
    if "maxLifetimeSeconds" in v.members && !IsLifetime(v.members["maxLifetimeSeconds"]) {
      return false;
    }
    if "callers" !in v.members {
      return false;
    }
    ok := CheckCallers(v.members["callers"]);
  }

  // Callers fields

  /** What an issuer is named by: its issuer, and its aliases. */
  predicate NamedBy(v: Value, id: Value) {
    v.Obj? && "issuer" in v.members
    && (id == v.members["issuer"]
        || ("issuerAliases" in v.members && v.members["issuerAliases"].Arr? && id in v.members["issuerAliases"].items))
  }

  /** A callers field: a list of issuers, no two named by one issuer or alias. */
  ghost predicate IsServiceAuth(v: Value, reader: KeyReader) {
    && HasOnly(v, {"issuers"})
    && "issuers" in v.members && v.members["issuers"].Arr?
    && var issuers := v.members["issuers"].items;
       && (forall i | 0 <= i < |issuers| :: IsIssuer(issuers[i], reader))
       && AllApart(issuers)
  }

  ghost predicate Apart(a: Value, b: Value) {
    forall id | NamedBy(a, id) :: !NamedBy(b, id)
  }

  /** A value whose JSON form is a callers field. */
  ghost predicate AcceptsCallers(v: Value, reader: KeyReader) {
    JsonForm(v).Ok? && IsServiceAuth(JsonForm(v).value, reader)
  }

  /** The ids an issuer is named by, in order. */
  function IdsOf(v: Value): (r: seq<Value>)
    requires v.Obj? && "issuer" in v.members
    ensures forall id :: id in r <==> NamedBy(v, id)
  {
    [v.members["issuer"]]
    + if "issuerAliases" in v.members && v.members["issuerAliases"].Arr? then v.members["issuerAliases"].items else []
  }

  method CheckServiceAuth(v: Value, reader: KeyReader) returns (ok: bool)
    ensures ok == AcceptsCallers(v, reader)
  {
    hide IsIssuer, JsonForm;
    var form := JsonForm(v);
    if form.Malformed? || !HasOnly(form.value, {"issuers"}) {
      return false;
    }
    if "issuers" !in form.value.members || !form.value.members["issuers"].Arr? {
      return false;
    }
    ok := CheckIssuers(form.value.members["issuers"].items, reader);
  }

  ghost predicate AllApart(issuers: seq<Value>) {
    forall i, j | 0 <= i < j < |issuers| :: Apart(issuers[i], issuers[j])
  }

  method CheckIssuers(issuers: seq<Value>, reader: KeyReader) returns (ok: bool)
    ensures ok <==> (forall i | 0 <= i < |issuers| :: IsIssuer(issuers[i], reader)) && AllApart(issuers)
  {
    hide IsIssuer, NamedBy, IdsOf;
    var names: set<Value> := {};
    for i := 0 to |issuers|
      invariant forall j | 0 <= j < i :: IsIssuer(issuers[j], reader)
      invariant forall j, id | 0 <= j < i && NamedBy(issuers[j], id) :: id in names
      invariant forall id | id in names :: exists j :: 0 <= j < i && NamedBy(issuers[j], id)
      invariant AllApart(issuers[..i])
    {
      ok := CheckIssuer(issuers[i], reader);
      if !ok {
        return;
      }
      IssuerIsNamed(issuers[i], reader);
      var ids := IdsOf(issuers[i]);
      ghost var before := names;
      for k := 0 to |ids|
        invariant names == before + (set id | id in ids[..k])
        invariant forall id | id in ids[..k] :: id !in before
      {
        assert ids[..k + 1] == ids[..k] + [ids[k]];
        if ids[k] in names {
          assert ids[k] in before && NamedBy(issuers[i], ids[k]);
          return false;
        }
        names := names + {ids[k]};
      }
      assert ids[..|ids|] == ids;
    }
    assert issuers[..|issuers|] == issuers;
    ok := true;
  }

  /** An issuer has an id, and no id twice. */
  lemma IssuerIsNamed(v: Value, reader: KeyReader)
    requires IsIssuer(v, reader)
    ensures v.Obj? && "issuer" in v.members
    ensures forall j, k | 0 <= j < k < |IdsOf(v)| :: IdsOf(v)[j] != IdsOf(v)[k]
  {
  }
}
