/** The contracts of the values edges derive, and their checks. */
module DerivedContracts {
  import opened Text
  import opened Values

  datatype EdgeKind = SQL | HTTP | Site | Bucket | MemoryStore | OtherKind

  /** An object without a member the contract does not have. */
  predicate HasOnly(v: Value, allowed: set<string>) {
    v.Obj? && v.members.Keys <= allowed
  }

  /** A string as a contract asks for it: not an empty literal, and otherwise a literal or any reference. */
  predicate IsStringMember(v: Value) {
    IsReference(v) || (v.Str? && v.s != "")
  }

  predicate Required(v: Value, name: string)
    requires v.Obj?
  {
    name in v.members && IsStringMember(v.members[name])
  }

  predicate Optional(v: Value, name: string)
    requires v.Obj?
  {
    name in v.members ==> IsStringMember(v.members[name])
  }

  /** An object whose members are these strings, all of them. */
  predicate AreStrings(v: Value, names: set<string>) {
    HasOnly(v, names) && forall name | name in names :: Required(v, name)
  }

  // One contract per kind of edge

  predicate IsDatabaseConnection(v: Value) {
    && HasOnly(v, {"url", "cloudSql", "d1", "hyperdrive"})
    && |v.members| == 1
    && if "url" in v.members then IsStringMember(v.members["url"])
       else if "cloudSql" in v.members then AreStrings(v.members["cloudSql"], {"instance", "database", "user"})
       else if "hyperdrive" in v.members then AreStrings(v.members["hyperdrive"], {"binding", "config"})
       else "d1" in v.members && AreStrings(v.members["d1"], {"binding", "database"})
  }

  predicate IsServiceEndpoint(v: Value) {
    && HasOnly(v, {"url", "binding", "credential"})
    && Required(v, "url")
    && ("binding" in v.members ==> AreStrings(v.members["binding"], {"name", "worker"}))
    && ("credential" in v.members ==> IsCredential(v.members["credential"]))
  }

  /** A credential: its source, a literal, the members that source reads and no other, and its headers. */
  predicate IsCredential(v: Value) {
    && HasOnly(v, {"source", "audience", "tokenFile", "issuer", "key", "headers"})
    && "source" in v.members && v.members["source"].Str?
    && NeededBy(v.members["source"].s) != {}
    && (forall name | name in SOURCE_MEMBERS :: SetAsRead(v, NeededBy(v.members["source"].s), name))
    && ("headers" in v.members ==> AreHeaders(v.members["headers"]))
  }

  const SOURCE_MEMBERS := ["audience", "tokenFile", "issuer", "key"]

  /** Of the members some source reads, one is set exactly when this source reads it. */
  predicate SetAsRead(v: Value, needs: set<string>, name: string)
    requires v.Obj?
  {
    if name in needs then Required(v, name) else name !in v.members
  }

  /** The members a source of credentials reads; none for a source that is not one. */
  function NeededBy(source: string): set<string> {
    if source == "google-id-token" then {"audience"}
    else if source == "token-file" then {"tokenFile"}
    else if source == "signed-token" then {"audience", "issuer", "key"}
    else {}
  }

  predicate IsSiteEndpoint(v: Value) {
    && HasOnly(v, {"url", "upstream", "binding"})
    && Required(v, "url")
    && Optional(v, "upstream")
    && ("binding" in v.members ==> "upstream" !in v.members && AreStrings(v.members["binding"], {"name", "worker"}))
  }

  predicate IsBucketConnection(v: Value) {
    && HasOnly(v, {"name", "endpoint", "binding", "r2"})
    && Required(v, "name")
    && Optional(v, "endpoint")
    && ("binding" in v.members ==> "endpoint" !in v.members && IsStringMember(v.members["binding"]))
    && ("r2" in v.members ==> "binding" in v.members && IsR2Credential(v.members["r2"]))
  }

  predicate IsR2Credential(v: Value) {
    && HasOnly(v, {"account", "accessKeyId", "token", "jurisdiction"})
    && Required(v, "account") && Required(v, "accessKeyId") && Required(v, "token")
    && Optional(v, "jurisdiction")
  }

  predicate IsMemoryStoreConnection(v: Value) {
    && HasOnly(v, {"store", "url", "ca", "auth", "member"})
    && Required(v, "store") && Required(v, "url") && Required(v, "auth")
    && Optional(v, "ca") && Optional(v, "member")
    && var url, auth := v.members["url"], v.members["auth"];
       && (url.Str? ==> "redis://" <= url.s || "rediss://" <= url.s)
       && ("ca" in v.members ==> !IsUnencrypted(url))
       && (auth.Str? ==> auth.s == "none" || (auth.s == "iam" && !IsUnencrypted(url)))
  }

  predicate IsUnencrypted(url: Value) {
    url.Str? && "redis://" <= url.s
  }

  // Headers

  /** An HTTP field name: a token, section 5.6.2 of RFC 9110. */
  predicate IsHeaderName(s: string) {
    s != "" && forall i | 0 <= i < |s| :: IsTokenChar(s[i])
  }

  predicate IsTokenChar(c: char) {
    IsLower(c) || IsUpper(c) || IsDigit(c) || c in "!#$%&'*+-.^_`|~"
  }

  /** The header the callee reads the credential from. */
  const SERVICE_AUTHORIZATION := "service-authorization"

  /** A list of header names, no two alike but for case, that holds the header the callee reads. */
  predicate AreHeaders(v: Value) {
    && v.Arr? && v.items != []
    && (forall i | 0 <= i < |v.items| :: v.items[i].Str? && IsHeaderName(v.items[i].s))
    && (forall i, j | 0 <= i < j < |v.items| :: ToLower(v.items[i].s) != ToLower(v.items[j].s))
    && exists i :: 0 <= i < |v.items| && ToLower(v.items[i].s) == SERVICE_AUTHORIZATION
  }

  method CheckHeaders(v: Value) returns (ok: bool)
    ensures ok == AreHeaders(v)
  {
    hide ToLower, IsHeaderName;
    if !v.Arr? || v.items == [] {
      return false;
    }
    var seen: set<string> := {};
    for i := 0 to |v.items|
      invariant forall j | 0 <= j < i :: v.items[j].Str? && IsHeaderName(v.items[j].s)
      invariant forall j, k | 0 <= j < k < i :: ToLower(v.items[j].s) != ToLower(v.items[k].s)
      invariant forall s :: s in seen <==> exists j :: 0 <= j < i && ToLower(v.items[j].s) == s
    {
      if !v.items[i].Str? || !IsHeaderName(v.items[i].s) {
        return false;
      }
      var canonical := ToLower(v.items[i].s);
      if canonical in seen {
        return false;
      }
      seen := seen + {canonical};
    }
    ok := SERVICE_AUTHORIZATION in seen;
  }

  // Checking

  predicate Meets(kind: EdgeKind, v: Value) {
    match kind
    case SQL => IsDatabaseConnection(v)
    case HTTP => IsServiceEndpoint(v)
    case Site => IsSiteEndpoint(v)
    case Bucket => IsBucketConnection(v)
    case MemoryStore => IsMemoryStoreConnection(v)
    case OtherKind => false
  }

  /** A value whose JSON form meets its kind's contract. */
  predicate Accepts(kind: EdgeKind, v: Value) {
    JsonForm(v).Ok? && Meets(kind, JsonForm(v).value)
  }

  method CheckDerivedValue(kind: EdgeKind, v: Value) returns (ok: bool)
    ensures ok == Accepts(kind, v)
  {
    var form := JsonForm(v);
    if form.Malformed? {
      return false;
    }
    match kind
    case SQL => ok := CheckDatabaseConnection(form.value);
    case HTTP => ok := CheckServiceEndpoint(form.value);
    case Site => ok := CheckSiteEndpoint(form.value);
    case Bucket => ok := CheckBucketConnection(form.value);
    case MemoryStore => ok := CheckMemoryStoreConnection(form.value);
    case OtherKind => ok := false;
  }

  /** Whether an object has exactly some members, and a string in each. */
  method CheckStrings(v: Value, names: seq<string>) returns (ok: bool)
    ensures ok == AreStrings(v, set n | n in names)
  {
    if !HasOnly(v, set n | n in names) {
      return false;
    }
    for i := 0 to |names|
      invariant forall j | 0 <= j < i :: Required(v, names[j])
    {
      if !Required(v, names[i]) {
        return false;
      }
    }
    ok := true;
  }

  const DATABASE_FORMS := ["url", "cloudSql", "d1", "hyperdrive"]

  /** The forms a database connection sets. */
  method FormsOf(v: Value) returns (forms: seq<string>)
    requires HasOnly(v, {"url", "cloudSql", "d1", "hyperdrive"})
    ensures (set f | f in forms) == v.members.Keys && |forms| == |v.members|
  {
    forms := [];
    ghost var keys: set<string> := {};
    for i := 0 to |DATABASE_FORMS|
      invariant keys == (set f | f in forms) && |keys| == |forms|
      invariant forall f :: f in forms <==> f in DATABASE_FORMS[..i] && f in v.members
    {
      assert DATABASE_FORMS[..i + 1] == DATABASE_FORMS[..i] + [DATABASE_FORMS[i]];
      assert DATABASE_FORMS[i] !in DATABASE_FORMS[..i];
      if DATABASE_FORMS[i] in v.members {
        keys := keys + {DATABASE_FORMS[i]};
        forms := forms + [DATABASE_FORMS[i]];
      }
    }
    AllForms();
    assert keys == v.members.Keys;
  }

  lemma AllForms()
    ensures forall f | f in {"url", "cloudSql", "d1", "hyperdrive"} :: f in DATABASE_FORMS[..|DATABASE_FORMS|]
  {
    assert DATABASE_FORMS[0] == "url" && DATABASE_FORMS[1] == "cloudSql";
    assert DATABASE_FORMS[2] == "d1" && DATABASE_FORMS[3] == "hyperdrive";
  }

  method CheckDatabaseConnection(v: Value) returns (ok: bool)
    ensures ok == IsDatabaseConnection(v)
  {
    if !HasOnly(v, {"url", "cloudSql", "d1", "hyperdrive"}) {
      return false;
    }
    var forms := FormsOf(v);
    if |forms| != 1 {
      return false;
    }
    var form := forms[0];
    assert v.members.Keys == {form};
    if form == "url" {
      ok := IsStringMember(v.members[form]);
    } else if form == "cloudSql" {
      ok := CheckStrings(v.members[form], ["instance", "database", "user"]);
    } else if form == "hyperdrive" {
      ok := CheckStrings(v.members[form], ["binding", "config"]);
    } else {
      ok := CheckStrings(v.members[form], ["binding", "database"]);
    }
  }

  method CheckSiteEndpoint(v: Value) returns (ok: bool)
    ensures ok == IsSiteEndpoint(v)
  {
    if !HasOnly(v, {"url", "upstream", "binding"}) || !Required(v, "url") {
      return false;
    }
    if "upstream" in v.members && !IsStringMember(v.members["upstream"]) {
      return false;
    }
    if "binding" !in v.members {
      return true;
    }
    if "upstream" in v.members {
      return false;
    }
    ok := CheckStrings(v.members["binding"], ["name", "worker"]);
  }

  method CheckBucketConnection(v: Value) returns (ok: bool)
    ensures ok == IsBucketConnection(v)
  {
    if !HasOnly(v, {"name", "endpoint", "binding", "r2"}) || !Required(v, "name") {
      return false;
    }
    if "endpoint" in v.members && !IsStringMember(v.members["endpoint"]) {
      return false;
    }
    if "binding" in v.members && ("endpoint" in v.members || !IsStringMember(v.members["binding"])) {
      return false;
    }
    if "r2" !in v.members {
      return true;
    }
    if "binding" !in v.members {
      return false;
    }
    ok := CheckR2Credential(v.members["r2"]);
  }

  method CheckR2Credential(v: Value) returns (ok: bool)
    ensures ok == IsR2Credential(v)
  {
    if !HasOnly(v, {"account", "accessKeyId", "token", "jurisdiction"}) {
      return false;
    }
    var names := ["account", "accessKeyId", "token"];
    for i := 0 to |names|
      invariant forall j | 0 <= j < i :: Required(v, names[j])
    {
      if !Required(v, names[i]) {
        return false;
      }
    }
    assert names[0] == "account" && names[1] == "accessKeyId" && names[2] == "token";
    if "jurisdiction" in v.members {
      return IsStringMember(v.members["jurisdiction"]);
    }
    ok := true;
  }

  datatype Scheme = Unknown | Plaintext | Encrypted

  method CheckMemoryStoreConnection(v: Value) returns (ok: bool)
    ensures ok == IsMemoryStoreConnection(v)
  {
    if !HasOnly(v, {"store", "url", "ca", "auth", "member"}) {
      return false;
    }
    if !Required(v, "store") || !Required(v, "url") || !Required(v, "auth") {
      return false;
    }
    if ("ca" in v.members && !IsStringMember(v.members["ca"]))
       || ("member" in v.members && !IsStringMember(v.members["member"])) {
      return false;
    }
    var scheme := Unknown;
    var url, auth := v.members["url"], v.members["auth"];
    if url.Str? {
      if "redis://" <= url.s {
        scheme := Plaintext;
      } else if "rediss://" <= url.s {
        scheme := Encrypted;
      } else {
        return false;
      }
    }
    if "ca" in v.members && scheme == Plaintext {
      return false;
    }
    if auth.Str? && auth.s != "none" {
      return auth.s == "iam" && scheme != Plaintext;
    }
    ok := true;
  }

  method CheckServiceEndpoint(v: Value) returns (ok: bool)
    ensures ok == IsServiceEndpoint(v)
  {
    if !HasOnly(v, {"url", "binding", "credential"}) || !Required(v, "url") {
      return false;
    }
    if "binding" in v.members {
      ok := CheckStrings(v.members["binding"], ["name", "worker"]);
      if !ok {
        return;
      }
    }
    if "credential" !in v.members {
      return true;
    }
    ok := CheckCredential(v.members["credential"]);
  }

  method CheckCredential(v: Value) returns (ok: bool)
    ensures ok == IsCredential(v)
  {
    if !HasOnly(v, {"source", "audience", "tokenFile", "issuer", "key", "headers"}) {
      return false;
    }
    if "source" !in v.members || !v.members["source"].Str? {
      return false;
    }
    var needs := NeededBy(v.members["source"].s);
    if needs == {} {
      return false;
    }
    for i := 0 to |SOURCE_MEMBERS|
      invariant forall j | 0 <= j < i :: SetAsRead(v, needs, SOURCE_MEMBERS[j])
    {
      if !SetAsRead(v, needs, SOURCE_MEMBERS[i]) {
        return false;
      }
    }
    if "headers" !in v.members {
      return true;
    }
    ok := CheckHeaders(v.members["headers"]);
  }
}
