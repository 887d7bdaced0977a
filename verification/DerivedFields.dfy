/** What encoding keeps of the values the contracts of derived fields accept. */
module DerivedFields {
  import opened Order
  import opened Text
  import opened Values
  import opened DerivedVariables
  import opened CamelNames
  import opened Shapes
  import opened ShapeReader
  import opened DerivedContracts

  /** The paths of every member a kind's value can have. */
  function DerivedMembers(kind: EdgeKind): seq<string> {
    match kind
    case SQL => [
      "url", "cloudSql.instance", "cloudSql.database", "cloudSql.user", "d1.binding", "d1.database",
      "hyperdrive.binding", "hyperdrive.config"]
    case HTTP => [
      "url", "binding.name", "binding.worker", "credential.source", "credential.audience", "credential.tokenFile",
      "credential.issuer", "credential.key", "credential.headers"]
    case Site => ["url", "upstream", "binding.name", "binding.worker"]
    case Bucket => ["name", "endpoint", "binding", "r2.account", "r2.accessKeyId", "r2.token", "r2.jurisdiction"]
    case MemoryStore => ["store", "url", "ca", "auth", "member"]
    case OtherKind => []
  }

  const BINDING := map["name" := Text, "worker" := Text]
  const CLOUD_SQL := map["instance" := Text, "database" := Text, "user" := Text]
  const D1 := map["binding" := Text, "database" := Text]
  const HYPERDRIVE := map["binding" := Text, "config" := Text]
  const CREDENTIAL := map[
    "source" := Text, "audience" := Text, "tokenFile" := Text, "issuer" := Text, "key" := Text, "headers" := Texts]
  const R2 := map["account" := Text, "accessKeyId" := Text, "token" := Text, "jurisdiction" := Text]

  /** The members of a kind's values. */
  function FieldsOfKind(kind: EdgeKind): map<string, Shape> {
    match kind
    case SQL =>
      map["url" := Text, "cloudSql" := Record(CLOUD_SQL), "d1" := Record(D1), "hyperdrive" := Record(HYPERDRIVE)]
    case HTTP => map["url" := Text, "binding" := Record(BINDING), "credential" := Record(CREDENTIAL)]
    case Site => map["url" := Text, "upstream" := Text, "binding" := Record(BINDING)]
    case Bucket => map["name" := Text, "endpoint" := Text, "binding" := Text, "r2" := Record(R2)]
    case MemoryStore => map["store" := Text, "url" := Text, "ca" := Text, "auth" := Text, "member" := Text]
    case OtherKind => map[]
  }

  function ShapeOf(kind: EdgeKind): Shape {
    Record(FieldsOfKind(kind))
  }

  // What is accepted fits its shape

  lemma RecordFits(fields: map<string, Shape>, v: Value)
    requires v.Obj? && v.members != map[]
    requires forall k | k in v.members :: k in fields && Fits(fields[k], v.members[k])
    ensures Fits(Record(fields), v)
  {
  }

  lemma StringFits(v: Value)
    requires IsStringMember(v)
    ensures Fits(Text, v)
  {
  }

  lemma StringsFit(v: Value, names: set<string>, fields: map<string, Shape>)
    requires AreStrings(v, names) && names == fields.Keys && names != {}
    requires forall k | k in fields :: fields[k] == Text
    ensures Fits(Record(fields), v)
  {
  }

  lemma DatabaseFits(v: Value)
    requires IsDatabaseConnection(v)
    ensures Fits(ShapeOf(SQL), v)
  {
    hide Fits, AreStrings, IsStringMember, CLOUD_SQL, HYPERDRIVE, D1;
    var fields := FieldsOfKind(SQL);
    var k :| k in v.members;
    forall k' | k' in v.members ensures k' == k { SingleKey(v.members, k', k); }
    DatabaseFormFits(k, v.members[k]);
    RecordFits(fields, v);
  }

  lemma DatabaseFormFits(k: string, inner: Value)
    requires k == "url" ==> IsStringMember(inner)
    requires k == "cloudSql" ==> AreStrings(inner, {"instance", "database", "user"})
    requires k == "hyperdrive" ==> AreStrings(inner, {"binding", "config"})
    requires k == "d1" ==> AreStrings(inner, {"binding", "database"})
    ensures k == "url" ==> Fits(Text, inner)
    ensures k == "cloudSql" ==> Fits(Record(CLOUD_SQL), inner)
    ensures k == "hyperdrive" ==> Fits(Record(HYPERDRIVE), inner)
    ensures k == "d1" ==> Fits(Record(D1), inner)
  {
    hide Fits, AreStrings, IsStringMember;
    if k == "url" {
      StringFits(inner);
    } else if k == "cloudSql" {
      StringsFit(inner, {"instance", "database", "user"}, CLOUD_SQL);
    } else if k == "hyperdrive" {
      StringsFit(inner, {"binding", "config"}, HYPERDRIVE);
    } else if k == "d1" {
      StringsFit(inner, {"binding", "database"}, D1);
    }
  }

  lemma HeadersFit(v: Value)
    requires AreHeaders(v)
    ensures Fits(Texts, v)
  {
    forall i | 0 <= i < |v.items| ensures ',' !in v.items[i].s {
      assert !IsTokenChar(',');
    }
  }

  lemma CredentialFits(v: Value)
    requires IsCredential(v)
    ensures Fits(Record(CREDENTIAL), v)
  {
    hide AreHeaders;
    var needs := NeededBy(v.members["source"].s);
    forall k | k in v.members ensures k in CREDENTIAL && Fits(CREDENTIAL[k], v.members[k]) {
      if k == "headers" {
        HeadersFit(v.members[k]);
      } else if k != "source" {
        assert SOURCE_MEMBERS[0] == "audience" && SOURCE_MEMBERS[1] == "tokenFile"
          && SOURCE_MEMBERS[2] == "issuer" && SOURCE_MEMBERS[3] == "key";
        assert k in SOURCE_MEMBERS;
        assert SetAsRead(v, needs, k);
      }
    }
  }

  lemma EndpointFits(v: Value)
    requires IsServiceEndpoint(v)
    ensures Fits(ShapeOf(HTTP), v)
  {
    hide Fits, AreStrings, IsStringMember, IsCredential;
    StringFits(v.members["url"]);
    if "binding" in v.members {
      StringsFit(v.members["binding"], {"name", "worker"}, BINDING);
    }
    if "credential" in v.members {
      CredentialFits(v.members["credential"]);
    }
    RecordFits(FieldsOfKind(HTTP), v);
  }

  lemma SiteFits(v: Value)
    requires IsSiteEndpoint(v)
    ensures Fits(ShapeOf(Site), v)
  {
    hide Fits, AreStrings, IsStringMember;
    StringFits(v.members["url"]);
    if "upstream" in v.members {
      StringFits(v.members["upstream"]);
    }
    if "binding" in v.members {
      StringsFit(v.members["binding"], {"name", "worker"}, BINDING);
    }
    RecordFits(FieldsOfKind(Site), v);
  }

  /** An object whose members are strings fits a shape of strings. */
  lemma AllStringsFit(fields: map<string, Shape>, v: Value)
    requires v.Obj? && v.members != map[] && v.members.Keys <= fields.Keys
    requires forall k | k in v.members :: fields[k] == Text && IsStringMember(v.members[k])
    ensures Fits(Record(fields), v)
  {
  }

  lemma R2Fits(v: Value)
    requires IsR2Credential(v)
    ensures Fits(Record(R2), v)
  {
  }

  lemma BucketFits(v: Value)
    requires IsBucketConnection(v)
    ensures Fits(ShapeOf(Bucket), v)
  {
    hide Fits, IsStringMember, IsR2Credential;
    var fields := FieldsOfKind(Bucket);
    forall k | k in v.members ensures Fits(fields[k], v.members[k]) {
      if k == "r2" {
        R2Fits(v.members[k]);
      } else {
        assert IsStringMember(v.members[k]);
        StringFits(v.members[k]);
      }
    }
    RecordFits(fields, v);
  }

  lemma MemoryStoreFits(v: Value)
    requires IsMemoryStoreConnection(v)
    ensures Fits(ShapeOf(MemoryStore), v)
  {
    hide Fits, IsStringMember;
    AllStringsFit(FieldsOfKind(MemoryStore), v);
  }

  lemma AcceptedFits(kind: EdgeKind, v: Value)
    requires Meets(kind, v)
    ensures Fits(ShapeOf(kind), v)
  {
    hide Fits, FieldsOfKind, IsDatabaseConnection, IsServiceEndpoint, IsSiteEndpoint, IsBucketConnection;
    hide IsMemoryStoreConnection;
    match kind
    case SQL => DatabaseFits(v);
    case HTTP => EndpointFits(v);
    case Site => SiteFits(v);
    case Bucket => BucketFits(v);
    case MemoryStore => MemoryStoreFits(v);
  }

  // Its members are told apart

  lemma LeavesSeparable(fields: map<string, Shape>)
    requires forall k | k in fields :: IsLeaf(fields[k]) && IsCamel(k)
    ensures Separable(Record(fields))
  {
    hide IsCamel;
    CamelSeparable(fields);
  }

  lemma FieldNamesAreCamel()
    ensures IsCamel("url") && IsCamel("binding") && IsCamel("name") && IsCamel("worker")
    ensures IsCamel("upstream") && IsCamel("endpoint")
  {
  }

  lemma DatabaseNamesAreCamel()
    ensures IsCamel("cloudSql") && IsCamel("instance") && IsCamel("database") && IsCamel("user")
    ensures IsCamel("d1") && IsCamel("hyperdrive") && IsCamel("config")
  {
  }

  lemma CredentialNamesAreCamel()
    ensures IsCamel("credential") && IsCamel("source") && IsCamel("audience") && IsCamel("tokenFile")
    ensures IsCamel("issuer") && IsCamel("key") && IsCamel("headers")
  {
  }

  lemma R2NamesAreCamel()
    ensures IsCamel("r2") && IsCamel("account") && IsCamel("accessKeyId") && IsCamel("token") && IsCamel("jurisdiction")
  {
  }

  lemma StoreNamesAreCamel()
    ensures IsCamel("store") && IsCamel("ca") && IsCamel("auth") && IsCamel("member")
  {
  }

  lemma BindingSeparable()
    ensures Separable(Record(BINDING))
  {
    hide IsCamel, Separable;
    FieldNamesAreCamel();
    LeavesSeparable(BINDING);
  }

  lemma CredentialSeparable()
    ensures Separable(Record(CREDENTIAL))
  {
    hide IsCamel, Separable;
    CredentialNamesAreCamel();
    LeavesSeparable(CREDENTIAL);
  }

  lemma R2Separable()
    ensures Separable(Record(R2))
  {
    hide IsCamel, Separable;
    R2NamesAreCamel();
    LeavesSeparable(R2);
  }

  lemma DatabaseFormsSeparable()
    ensures Separable(Record(CLOUD_SQL)) && Separable(Record(D1)) && Separable(Record(HYPERDRIVE))
  {
    hide IsCamel, Separable;
    FieldNamesAreCamel();
    DatabaseNamesAreCamel();
    LeavesSeparable(CLOUD_SQL);
    LeavesSeparable(D1);
    LeavesSeparable(HYPERDRIVE);
  }

  lemma FieldsCamel(kind: EdgeKind)
    ensures forall k | k in FieldsOfKind(kind) :: IsCamel(k)
  {
    hide IsCamel;
    FieldNamesAreCamel();
    match kind
    case SQL => DatabaseNamesAreCamel();
    case HTTP => CredentialNamesAreCamel();
    case Site =>
    case Bucket => R2NamesAreCamel();
    case MemoryStore => StoreNamesAreCamel();
    case OtherKind =>
  }

  lemma FieldsSeparable(kind: EdgeKind)
    ensures forall k | k in FieldsOfKind(kind) :: Separable(FieldsOfKind(kind)[k])
  {
    hide Separable;
    LeafSeparable(Text);
    match kind
    case SQL => DatabaseFormsSeparable();
    case HTTP => BindingSeparable(); CredentialSeparable();
    case Site => BindingSeparable();
    case Bucket => R2Separable();
    case MemoryStore =>
    case OtherKind =>
  }

  lemma LeafSeparable(shape: Shape)
    requires IsLeaf(shape)
    ensures Separable(shape)
  {
  }

  lemma FieldsNest(kind: EdgeKind, k: string, k': string)
    requires k in FieldsOfKind(kind) && k' in FieldsOfKind(kind) && k != k' && !IsLeaf(FieldsOfKind(kind)[k])
    ensures !(k <= k')
  {
    hide BINDING, CLOUD_SQL, D1, HYPERDRIVE, CREDENTIAL, R2;
    assert k[0] != k'[0];
  }

  lemma ShapeSeparable(kind: EdgeKind)
    ensures Separable(ShapeOf(kind))
  {
    hide IsCamel, Separable, FieldsOfKind;
    FieldsSeparable(kind);
    FieldsCamel(kind);
    var fields := FieldsOfKind(kind);
    forall k, k' | k in fields && k' in fields && k != k' && !IsLeaf(fields[k]) ensures !(k <= k') {
      FieldsNest(kind, k, k');
    }
    CamelSeparable(fields);
  }

  // Its variables are its members'

  /** A variable named after one of some members, and marked secret exactly when that member is. */
  ghost predicate IsMembers(x: Variable, field: string, members: seq<string>) {
    exists p :: p in members && x.name == VariableName(field, p) && x.secret == SecretMember(p)
  }

  lemma {:induction false} MemberHolding(name: string, path: string, v: Value, keys: seq<string>, x: Variable)
    requires v.Obj? && forall k | k in keys :: k in v.members
    requires WalkMembers(name, path, v, keys).Vars? && x in WalkMembers(name, path, v, keys).vars
    ensures exists k :: k in keys && HoldsVariable(name, path, v, k, x)
    decreases |keys|
  {
    if HoldsVariable(name, path, v, keys[0], x) {
      assert keys[0] in keys;
    } else {
      MemberHolding(name, path, v, keys[1..], x);
      var k :| k in keys[1..] && HoldsVariable(name, path, v, k, x);
      assert k in keys;
    }
  }

  /** A variable of a value is a variable of its member k. */
  ghost predicate HoldsVariable(name: string, path: string, v: Value, k: string, x: Variable)
    requires v.Obj?
  {
    k in v.members
    && var walked := Walk(Member(name, k), Inner(path, k), v.members[k]);
       walked.Vars? && x in walked.vars
  }

  lemma ObjectHolding(name: string, path: string, v: Value, x: Variable)
    requires v.Obj? && Walk(name, path, v).Vars? && x in Walk(name, path, v).vars
    ensures exists k :: HoldsVariable(name, path, v, k, x)
  {
    var keys := SortedNames(v.members.Keys);
    MemberHolding(name, path, v, keys, x);
    var k :| k in keys && HoldsVariable(name, path, v, k, x);
  }

  lemma LeafVariable(shape: Shape, name: string, path: string, v: Value, x: Variable)
    requires Fits(shape, v) && (shape.Text? || (shape.Texts? && !SecretMember(path)))
    requires Walk(name, path, v).Vars? && x in Walk(name, path, v).vars
    ensures x.name == name && x.secret == SecretMember(path)
  {
  }

  lemma CamelHasNoDot(k: string)
    requires IsCamel(k)
    ensures '.' !in k
  {
    forall i | 0 <= i < |k| ensures k[i] != '.' {
      assert CamelAt(k, i);
    }
  }

  lemma NameOfMember(field: string, k: string)
    requires IsCamel(k)
    ensures VariableName(field, k) == Member(field, k)
  {
    CamelHasNoDot(k);
    SplitOfWhole(k, '.');
    assert NameOfSegments(field, []) == field;
    assert [k][..0] == [];
  }

  lemma NameOfInner(field: string, k: string, k': string)
    requires IsCamel(k) && IsCamel(k')
    ensures Inner(k, k') == k + "." + k'
    ensures VariableName(field, k + "." + k') == Member(Member(field, k), k')
  {
    CamelHasNoDot(k);
    CamelHasNoDot(k');
    NameOfTwo(field, k, k');
  }

  lemma NameOfTwo(field: string, k: string, k': string)
    requires '.' !in k && '.' !in k'
    ensures VariableName(field, k + "." + k') == Member(Member(field, k), k')
  {
    SplitOfWhole(k, '.');
    SplitOfWhole(k', '.');
    SplitAtSeparator(k, k', '.');
    assert k + "." + k' == k + ['.'] + k';
    var segments := [k] + [k'];
    assert Split(k + "." + k', '.') == segments;
    assert segments[..1] == [k] && segments[1] == k' && [k][..0] == [];
    assert NameOfSegments(field, []) == field;
    assert NameOfSegments(field, [k]) == Member(field, k);
  }

  /** The leaf members of a kind's values, and the members of its objects, are the listed paths. */
  lemma LeafListed(kind: EdgeKind, k: string)
    requires k in FieldsOfKind(kind) && !FieldsOfKind(kind)[k].Record?
    ensures k in DerivedMembers(kind) && FieldsOfKind(kind)[k].Text?
  {
    hide BINDING, CLOUD_SQL, D1, HYPERDRIVE, CREDENTIAL, R2;
    var members := DerivedMembers(kind);
    match kind
    case SQL => assert members[0] == k;
    case HTTP => assert members[0] == k;
    case Site => assert members[0] == k || members[1] == k;
    case Bucket => assert members[0] == k || members[1] == k || members[2] == k;
    case MemoryStore =>
      assert members[0] == k || members[1] == k || members[2] == k || members[3] == k || members[4] == k;
  }

  lemma CloudSqlListed(k': string)
    requires k' in CLOUD_SQL
    ensures "cloudSql" + "." + k' in DerivedMembers(SQL)
  {
    var members := DerivedMembers(SQL);
    assert "cloudSql" + "." + "instance" == members[1] && "cloudSql" + "." + "database" == members[2];
    assert "cloudSql" + "." + "user" == members[3];
  }

  lemma WorkerDatabaseListed(k': string)
    ensures k' in D1 ==> "d1" + "." + k' in DerivedMembers(SQL)
    ensures k' in HYPERDRIVE ==> "hyperdrive" + "." + k' in DerivedMembers(SQL)
  {
    var members := DerivedMembers(SQL);
    assert "d1" + "." + "binding" == members[4] && "d1" + "." + "database" == members[5];
    assert "hyperdrive" + "." + "binding" == members[6] && "hyperdrive" + "." + "config" == members[7];
  }

  lemma DatabaseListed(k: string, k': string)
    requires k in FieldsOfKind(SQL) && FieldsOfKind(SQL)[k].Record? && k' in FieldsOfKind(SQL)[k].fields
    ensures k + "." + k' in DerivedMembers(SQL)
  {
    hide CLOUD_SQL, D1, HYPERDRIVE, DerivedMembers;
    if k == "cloudSql" {
      CloudSqlListed(k');
    } else {
      WorkerDatabaseListed(k');
    }
  }

  lemma BindingListed(k': string)
    requires k' in BINDING
    ensures "binding" + "." + k' in DerivedMembers(HTTP) && "binding" + "." + k' in DerivedMembers(Site)
  {
    assert "binding" + "." + "name" == DerivedMembers(HTTP)[1] == DerivedMembers(Site)[2];
    assert "binding" + "." + "worker" == DerivedMembers(HTTP)[2] == DerivedMembers(Site)[3];
  }

  lemma CredentialListed(k': string)
    requires k' in CREDENTIAL
    ensures "credential" + "." + k' in DerivedMembers(HTTP)
    ensures k' == "headers" ==> !SecretMember("credential" + "." + k')
  {
    var members := DerivedMembers(HTTP);
    assert "credential" + "." + "source" == members[3] && "credential" + "." + "audience" == members[4];
    assert "credential" + "." + "tokenFile" == members[5] && "credential" + "." + "issuer" == members[6];
    assert "credential" + "." + "key" == members[7] && "credential" + "." + "headers" == members[8];
  }

  lemma R2Listed(k': string)
    requires k' in R2
    ensures "r2" + "." + k' in DerivedMembers(Bucket)
  {
    var members := DerivedMembers(Bucket);
    assert "r2" + "." + "account" == members[3] && "r2" + "." + "accessKeyId" == members[4];
    assert "r2" + "." + "token" == members[5] && "r2" + "." + "jurisdiction" == members[6];
  }

  /** The members of a kind's objects are texts, but for the headers of a credential. */
  lemma RecordsHoldTexts()
    ensures forall k | k in BINDING :: BINDING[k].Text?
    ensures forall k | k in CLOUD_SQL :: CLOUD_SQL[k].Text?
    ensures forall k | k in D1 :: D1[k].Text?
    ensures forall k | k in HYPERDRIVE :: HYPERDRIVE[k].Text?
    ensures forall k | k in CREDENTIAL :: if k == "headers" then CREDENTIAL[k].Texts? else CREDENTIAL[k].Text?
    ensures forall k | k in R2 :: R2[k].Text?
  {
  }

  lemma InnerListed(kind: EdgeKind, k: string, k': string)
    requires k in FieldsOfKind(kind) && FieldsOfKind(kind)[k].Record? && k' in FieldsOfKind(kind)[k].fields
    ensures k + "." + k' in DerivedMembers(kind)
    ensures var inner := FieldsOfKind(kind)[k].fields[k'];
      inner.Text? || (inner.Texts? && !SecretMember(k + "." + k'))
  {
    hide SecretMember, DerivedMembers, BINDING, CLOUD_SQL, D1, HYPERDRIVE, CREDENTIAL, R2;
    RecordsHoldTexts();
    match kind
    case SQL => DatabaseListed(k, k');
    case HTTP =>
      if k == "binding" {
        BindingListed(k');
      } else {
        CredentialListed(k');
      }
    case Site => BindingListed(k');
    case Bucket => R2Listed(k');
  }

  lemma RecordsAreCamel()
    ensures forall k | k in BINDING :: IsCamel(k)
    ensures forall k | k in CLOUD_SQL :: IsCamel(k)
    ensures forall k | k in D1 :: IsCamel(k)
    ensures forall k | k in HYPERDRIVE :: IsCamel(k)
    ensures forall k | k in CREDENTIAL :: IsCamel(k)
    ensures forall k | k in R2 :: IsCamel(k)
  {
    hide IsCamel;
    FieldNamesAreCamel();
    DatabaseNamesAreCamel();
    CredentialNamesAreCamel();
    R2NamesAreCamel();
  }

  lemma InnerCamel(kind: EdgeKind, k: string, k': string)
    requires k in FieldsOfKind(kind) && FieldsOfKind(kind)[k].Record? && k' in FieldsOfKind(kind)[k].fields
    ensures IsCamel(k')
  {
    hide IsCamel, BINDING, CLOUD_SQL, D1, HYPERDRIVE, CREDENTIAL, R2;
    RecordsAreCamel();
  }

  lemma VariableIsMembers(kind: EdgeKind, field: string, v: Value, x: Variable)
    requires Fits(ShapeOf(kind), v) && Walk(field, "", v).Vars? && x in Walk(field, "", v).vars
    ensures IsMembers(x, field, DerivedMembers(kind))
  {
    hide Walk, IsCamel, FieldsOfKind, DerivedMembers, SecretMember, VariableName, Member;
    ObjectHolding(field, "", v, x);
    var k :| HoldsVariable(field, "", v, k, x);
    var shape := FieldsOfKind(kind)[k];
    FieldsCamel(kind);
    assert Inner("", k) == k;
    if shape.Record? {
      ObjectHolding(Member(field, k), k, v.members[k], x);
      var k' :| HoldsVariable(Member(field, k), k, v.members[k], k', x);
      InnerListed(kind, k, k');
      InnerCamel(kind, k, k');
      NameOfInner(field, k, k');
      LeafVariable(shape.fields[k'], Member(Member(field, k), k'), Inner(k, k'), v.members[k].members[k'], x);
    } else {
      LeafListed(kind, k);
      NameOfMember(field, k);
      LeafVariable(shape, Member(field, k), k, v.members[k], x);
    }
  }

  // Encoding a derived field

  lemma {:induction false} TwoPlaces<T>(s: seq<T>, x: T)
    requires multiset(s)[x] >= 2
    ensures exists i, j :: 0 <= i < j < |s| && s[i] == x && s[j] == x
  {
    var front := s[..|s| - 1];
    assert s == front + [s[|s| - 1]];
    if s[|s| - 1] == x {
      assert x in multiset(front);
      var i :| 0 <= i < |front| && front[i] == x;
      assert s[i] == x;
    } else {
      TwoPlaces(front, x);
      var i, j :| 0 <= i < j < |front| && front[i] == x && front[j] == x;
      assert s[i] == x && s[j] == x;
    }
  }

  lemma Occurrences<T>(s: seq<T>, i: nat, j: nat)
    requires i < j < |s| && s[i] == s[j]
    ensures multiset(s)[s[i]] >= 2
  {
    assert s == s[..j] + [s[j]] + s[j + 1..];
    assert s[i] in s[..j];
  }

  /** Sorting keeps names distinct. */
  lemma SortingKeepsDistinct(vars: seq<Variable>, sorted: seq<Variable>)
    requires DistinctNames(vars) && multiset(sorted) == multiset(vars)
    ensures DistinctNames(sorted)
  {
    forall i, j | 0 <= i < j < |sorted| ensures sorted[i].name != sorted[j].name {
      assert sorted[i] in multiset(vars) && sorted[j] in multiset(vars);
      if sorted[i] == sorted[j] {
        Occurrences(sorted, i, j);
        TwoPlaces(vars, sorted[i]);
      }
    }
  }

  lemma SameElements(vars: seq<Variable>, sorted: seq<Variable>)
    requires multiset(sorted) == multiset(vars)
    ensures forall x :: x in sorted <==> x in vars
  {
    assert forall x :: x in sorted <==> x in multiset(sorted);
    assert forall x :: x in vars <==> x in multiset(vars);
  }

  lemma SortingKeepsEnv(vars: seq<Variable>, sorted: seq<Variable>, env: Env)
    requires IsEnv(sorted, env) && forall x :: x in sorted <==> x in vars
    ensures IsEnv(vars, env)
  {
  }

  lemma {:induction false} NothingUncounted(shape: Shape, v: Value)
    requires Fits(shape, v) && Countless(shape)
    ensures Bounded(shape, v)
    decreases shape
  {
    if shape.Record? {
      forall k | k in v.members ensures Bounded(shape.fields[k], v.members[k]) {
        NothingUncounted(shape.fields[k], v.members[k]);
      }
    } else if shape.ListOf? {
      forall i | 0 <= i < |v.items| ensures Bounded(shape.item, v.items[i]) {
        NothingUncounted(shape.item, v.items[i]);
      }
    }
  }

  /** A shape without numbers. */
  predicate Countless(shape: Shape) {
    match shape
    case Record(fields) => forall k | k in fields :: Countless(fields[k])
    case ListOf(item) => Countless(item)
    case _ => !shape.Count?
  }

  lemma LeavesAreCountless(fields: map<string, Shape>)
    requires forall k | k in fields :: fields[k].Text? || fields[k].Texts?
    ensures Countless(Record(fields))
  {
  }

  lemma InnerAreLeaves(kind: EdgeKind, k: string)
    requires k in FieldsOfKind(kind) && !FieldsOfKind(kind)[k].Text?
    ensures var inner := FieldsOfKind(kind)[k];
      inner.Record? && forall k' | k' in inner.fields :: inner.fields[k'].Text? || inner.fields[k'].Texts?
  {
    hide BINDING, CLOUD_SQL, D1, HYPERDRIVE, CREDENTIAL, R2;
    RecordsHoldTexts();
  }

  lemma FieldIsCountless(kind: EdgeKind, k: string)
    requires k in FieldsOfKind(kind)
    ensures Countless(FieldsOfKind(kind)[k])
  {
    hide Countless;
    var shape := FieldsOfKind(kind)[k];
    if shape.Text? {
      TextIsCountless(shape);
    } else {
      InnerAreLeaves(kind, k);
      LeavesAreCountless(shape.fields);
    }
  }

  lemma KindIsCountless(kind: EdgeKind)
    ensures Countless(ShapeOf(kind))
  {
    hide Countless, FieldsOfKind;
    forall k | k in FieldsOfKind(kind) ensures Countless(FieldsOfKind(kind)[k]) {
      FieldIsCountless(kind, k);
    }
    FieldsAreCountless(FieldsOfKind(kind));
  }

  lemma TextIsCountless(shape: Shape)
    ensures shape.Text? ==> Countless(shape)
  {
  }

  lemma FieldsAreCountless(fields: map<string, Shape>)
    requires forall k | k in fields :: Countless(fields[k])
    ensures Countless(Record(fields))
  {
  }

  lemma AcceptedWalks(kind: EdgeKind, field: string, v: Value)
    requires Meets(kind, v)
    ensures Fits(ShapeOf(kind), v) && Bounded(ShapeOf(kind), v) && Separable(ShapeOf(kind))
    ensures GoodWalk(ShapeOf(kind), field, Walk(field, "", v))
  {
    hide Walk, Fits, Separable, Bounded, Meets, ShapeOf, Countless, GoodWalk;
    AcceptedFits(kind, v);
    ShapeSeparable(kind);
    KindIsCountless(kind);
    NothingUncounted(ShapeOf(kind), v);
    WalkFits(ShapeOf(kind), field, "", v);
  }

  /** What a kind's check accepts encodes: each variable is named after a member of the kind, no two
      alike, and is marked secret exactly when its member is; and a server set exactly those variables
      reads the value back. */
  lemma {:induction false} AcceptedDerives(kind: EdgeKind, field: string, value: Value, r: Encoded, env: Env)
    requires Accepts(kind, value) && IsDerivation(field, value, r)
    ensures r.Vars? && r.vars != [] && DistinctNames(r.vars)
    ensures forall x | x in r.vars :: IsMembers(x, field, DerivedMembers(kind))
    ensures IsEnv(r.vars, env) ==> Read(ShapeOf(kind), field, env) == JsonForm(value).value
  {
    hide Walk, Fits, Separable, Bounded, Read, DistinctNames, IsEnv, IsMembers, Meets, ShapeOf;
    var v := JsonForm(value).value;
    AcceptedWalks(kind, field, v);
    var vars := Walk(field, "", v).vars;
    SortingKeepsDistinct(vars, r.vars);
    SameElements(vars, r.vars);
    assert vars[0] in r.vars;
    forall x | x in r.vars ensures IsMembers(x, field, DerivedMembers(kind)) {
      VariableIsMembers(kind, field, v, x);
    }
    if IsEnv(r.vars, env) {
      SortingKeepsEnv(vars, r.vars, env);
      VariablesReadBack(ShapeOf(kind), field, v, env);
    }
  }

  /** Whether a config field of a name collides with a derived field. */
  predicate DerivedFieldClaims(field: string, name: string) {
    name == field || field + "_" <= name
  }

  /** A derived field claims each of its variables. */
  lemma {:induction false} VariablesAreClaimed(kind: EdgeKind, field: string, value: Value, r: Encoded)
    requires Accepts(kind, value) && IsDerivation(field, value, r)
    ensures r.Vars? && forall x | x in r.vars :: field + "_" <= x.name && DerivedFieldClaims(field, x.name)
  {
    hide Walk, Fits, Separable, Bounded, DistinctNames, Meets, FieldsOfKind, JsonForm;
    var v := JsonForm(value).value;
    AcceptedWalks(kind, field, v);
    SameElements(Walk(field, "", v).vars, r.vars);
  }

  /** Two derived fields, neither claiming the other, share no variable. */
  lemma {:induction false} FieldsShareNoVariable(
    kind: EdgeKind, field: string, value: Value, r: Encoded,
    kind': EdgeKind, field': string, value': Value, r': Encoded)
    requires Accepts(kind, value) && IsDerivation(field, value, r)
    requires Accepts(kind', value') && IsDerivation(field', value', r')
    requires !DerivedFieldClaims(field, field') && !DerivedFieldClaims(field', field)
    ensures r.Vars? && r'.Vars? && forall x, y | x in r.vars && y in r'.vars :: x.name != y.name
  {
    hide Accepts, IsDerivation;
    VariablesAreClaimed(kind, field, value, r);
    VariablesAreClaimed(kind', field', value', r');
    forall x, y | x in r.vars && y in r'.vars ensures x.name != y.name {
      if x.name == y.name {
        PrefixesNest(field, field', x.name);
      }
    }
  }

  lemma PrefixesNest(field: string, field': string, name: string)
    requires field + "_" <= name && field' + "_" <= name
    ensures DerivedFieldClaims(field, field') || DerivedFieldClaims(field', field)
  {
    if |field| <= |field'| {
      SegmentsNest("", field, field', name);
    } else {
      SegmentsNest("", field', field, name);
    }
  }
}
