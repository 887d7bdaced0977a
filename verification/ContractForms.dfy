/** The contracts of derived values as the forms their objects may take, each with the members it has and may have. */
module ContractForms {
  import opened Basics
  import opened Text
  import opened Values
  import opened DerivedContracts
  import S = ServiceAuth

  /** An object that has some members, may have some others, and has no more. */
  predicate IsObject(v: Value, has: set<string>, may: set<string>) {
    v.Obj? && has <= v.members.Keys && v.members.Keys <= has + may
  }

  /** A reference, or a literal that says something. */
  predicate IsGiven(v: Value) {
    v.Output? || v.Parameter? || v.Concat? || (v.Str? && |v.s| > 0)
  }

  predicate AllGiven(v: Value, names: set<string>)
    requires v.Obj?
  {
    forall name | name in names && name in v.members :: IsGiven(v.members[name])
  }

  predicate IsStrings(v: Value, names: set<string>) {
    IsObject(v, names, {}) && AllGiven(v, names)
  }

  // Derived values

  /** The kinds of edge that derive a value, each with its forms. */
  predicate HasForm(kind: EdgeKind, v: Value) {
    match kind
    case SQL => HasDatabaseForm(v)
    case HTTP => HasServiceForm(v)
    case Site => HasSiteForm(v)
    case Bucket => HasBucketForm(v)
    case MemoryStore => HasStoreForm(v)
    case OtherKind => false
  }

  predicate HasDatabaseForm(v: Value) {
    || (IsObject(v, {"url"}, {}) && IsGiven(v.members["url"]))
    || (IsObject(v, {"cloudSql"}, {}) && IsStrings(v.members["cloudSql"], {"instance", "database", "user"}))
    || (IsObject(v, {"d1"}, {}) && IsStrings(v.members["d1"], {"binding", "database"}))
    || (IsObject(v, {"hyperdrive"}, {}) && IsStrings(v.members["hyperdrive"], {"binding", "config"}))
  }

  predicate HasServiceForm(v: Value) {
    && IsObject(v, {"url"}, {"binding", "credential"}) && AllGiven(v, {"url"})
    && ("binding" !in v.members || IsStrings(v.members["binding"], {"name", "worker"}))
    && ("credential" !in v.members || HasCredentialForm(v.members["credential"]))
  }

  predicate HasCredentialForm(v: Value) {
    && (IsSourced(v, "google-id-token", {"audience"})
        || IsSourced(v, "token-file", {"tokenFile"})
        || IsSourced(v, "signed-token", {"audience", "issuer", "key"}))
    && ("headers" !in v.members || HasHeadersForm(v.members["headers"]))
  }

  predicate IsSourced(v: Value, source: string, needed: set<string>) {
    IsObject(v, {"source"} + needed, {"headers"}) && v.members["source"] == Str(source) && AllGiven(v, needed)
  }

  /** A character of a token, section 5.6.2 of RFC 9110. */
  predicate IsTchar(c: char) {
    c in "!#$%&'*+-.^_`|~" || '0' <= c <= '9' || 'a' <= c <= 'z' || 'A' <= c <= 'Z'
  }

  predicate SameLetter(c: char, d: char) {
    c == d || ('A' <= c <= 'Z' && d as int == c as int + 32) || ('A' <= d <= 'Z' && c as int == d as int + 32)
  }

  predicate SameButForCase(a: string, b: string) {
    |a| == |b| && forall i | 0 <= i < |a| :: SameLetter(a[i], b[i])
  }

  predicate HasHeadersForm(v: Value) {
    && v.Arr?
    && (forall i | 0 <= i < |v.items| ::
          v.items[i].Str? && |v.items[i].s| > 0 && forall k | 0 <= k < |v.items[i].s| :: IsTchar(v.items[i].s[k]))
    && (forall i, j | 0 <= i < j < |v.items| :: !SameButForCase(v.items[i].s, v.items[j].s))
    && exists i :: 0 <= i < |v.items| && SameButForCase(v.items[i].s, "service-authorization")
  }

  predicate HasSiteForm(v: Value) {
    || (IsObject(v, {"url"}, {"upstream"}) && AllGiven(v, {"url", "upstream"}))
    || (IsObject(v, {"url", "binding"}, {}) && AllGiven(v, {"url"})
        && IsStrings(v.members["binding"], {"name", "worker"}))
  }

  predicate HasBucketForm(v: Value) {
    || (IsObject(v, {"name"}, {"endpoint"}) && AllGiven(v, {"name", "endpoint"}))
    || (IsObject(v, {"name", "binding"}, {}) && AllGiven(v, {"name", "binding"}))
    || (IsObject(v, {"name", "binding", "r2"}, {}) && AllGiven(v, {"name", "binding"})
        && IsObject(v.members["r2"], {"account", "accessKeyId", "token"}, {"jurisdiction"})
        && AllGiven(v.members["r2"], {"account", "accessKeyId", "token", "jurisdiction"}))
  }

  /** Over an unencrypted connection there is no certificate authority, and no token to send. */
  predicate HasStoreForm(v: Value) {
    && IsObject(v, {"store", "url", "auth"}, {"ca", "member"}) && AllGiven(v, {"store", "url", "auth", "ca", "member"})
    && var url, auth := v.members["url"], v.members["auth"];
       || (url.Str? && Begins(url.s, "redis://") && "ca" !in v.members && (!auth.Str? || auth.s == "none"))
       || ((url.Str? ==> Begins(url.s, "rediss://")) && (!auth.Str? || auth.s in {"none", "iam"}))
  }

  predicate Begins(s: string, lead: string) {
    |lead| <= |s| && forall i | 0 <= i < |lead| :: s[i] == lead[i]
  }

  // What a checked value is

  lemma StringsForm(v: Value, names: set<string>)
    ensures AreStrings(v, names) <==> IsStrings(v, names)
  {
  }

  lemma DatabaseForm(v: Value)
    ensures IsDatabaseConnection(v) <==> HasDatabaseForm(v)
  {
    hide AreStrings, IsStrings;
    if v.Obj? && "cloudSql" in v.members {
      StringsForm(v.members["cloudSql"], {"instance", "database", "user"});
    }
    if v.Obj? && "d1" in v.members {
      StringsForm(v.members["d1"], {"binding", "database"});
    }
    if v.Obj? && "hyperdrive" in v.members {
      StringsForm(v.members["hyperdrive"], {"binding", "config"});
    }
    if v.Obj? {
      SizeOne(v);
    }
  }

  lemma SizeOne(v: Value)
    requires v.Obj?
    ensures |v.members| == 1 <==> exists k :: v.members.Keys == {k}
    ensures |v.members| == 1 ==> forall k | k in v.members :: v.members.Keys == {k}
  {
    assert |v.members| == |v.members.Keys|;
    if |v.members| == 1 {
      forall k | k in v.members ensures v.members.Keys == {k} { OneKey(v.members.Keys, k); }
      var k :| k in v.members.Keys;
    }
  }

  lemma OneKey(keys: set<string>, k: string)
    requires |keys| == 1 && k in keys
    ensures keys == {k}
  {
    SubsetSize({k}, keys);
  }

  lemma SameLower(c: char, d: char)
    ensures LowerOf(c) == LowerOf(d) <==> SameLetter(c, d)
  {
  }

  lemma SameLowerCase(a: string, b: string)
    ensures ToLower(a) == ToLower(b) <==> SameButForCase(a, b)
  {
    hide ToLower, LowerOf, SameLetter;
    forall i | 0 <= i < |a| && i < |b| ensures ToLower(a)[i] == ToLower(b)[i] <==> SameLetter(a[i], b[i]) {
      SameLower(a[i], b[i]);
    }
    assert |ToLower(a)| == |a| && |ToLower(b)| == |b|;
    if SameButForCase(a, b) {
      assert ToLower(a) == ToLower(b);
    }
  }

  lemma SmallStays(s: string)
    requires forall c | c in s :: !IsUpper(c)
    ensures ToLower(s) == s
  {
    assert forall i | 0 <= i < |s| :: s[i] in s;
  }

  lemma ServiceHeaderIsSmall()
    ensures ToLower("service-authorization") == SERVICE_AUTHORIZATION
  {
    hide ToLower;
    SmallStays(SERVICE_AUTHORIZATION);
  }

  lemma HeaderName(s: string)
    ensures IsHeaderName(s) <==> |s| > 0 && forall k | 0 <= k < |s| :: IsTchar(s[k])
  {
    assert forall c :: IsTokenChar(c) <==> IsTchar(c);
  }

  lemma HeadersForm(v: Value)
    ensures AreHeaders(v) <==> HasHeadersForm(v)
  {
    hide ToLower, SameButForCase, IsTokenChar, IsTchar, IsHeaderName;
    ServiceHeaderIsSmall();
    forall s ensures IsHeaderName(s) <==> |s| > 0 && forall k | 0 <= k < |s| :: IsTchar(s[k]) { HeaderName(s); }
    forall a, b ensures ToLower(a) == ToLower(b) <==> SameButForCase(a, b) { SameLowerCase(a, b); }
  }

  lemma CredentialForm(v: Value)
    ensures IsCredential(v) <==> HasCredentialForm(v)
  {
    hide AreHeaders, HasHeadersForm, IsStringMember, IsGiven;
    forall w ensures IsStringMember(w) <==> IsGiven(w) { Given(w); }
    assert forall name :: name in SOURCE_MEMBERS <==> name in {"audience", "tokenFile", "issuer", "key"};
    if v.Obj? && "headers" in v.members {
      HeadersForm(v.members["headers"]);
    }
    if v.Obj? && "source" in v.members && v.members["source"].Str? {
      SourceForm(v, "google-id-token");
      SourceForm(v, "token-file");
      SourceForm(v, "signed-token");
    }
  }

  lemma Given(v: Value)
    ensures IsStringMember(v) <==> IsGiven(v)
  {
  }

  lemma SourceForm(v: Value, source: string)
    requires NeededBy(source) != {}
    ensures IsSourced(v, source, NeededBy(source)) <==>
      && HasOnly(v, {"source", "audience", "tokenFile", "issuer", "key", "headers"})
      && "source" in v.members && v.members["source"] == Str(source)
      && forall name | name in SOURCE_MEMBERS :: SetAsRead(v, NeededBy(source), name)
  {
    hide IsStringMember, IsGiven;
    forall w ensures IsStringMember(w) <==> IsGiven(w) { Given(w); }
    assert forall name :: name in SOURCE_MEMBERS <==> name in {"audience", "tokenFile", "issuer", "key"};
    var needed, members := NeededBy(source), {"audience", "tokenFile", "issuer", "key"};
    assert needed <= members;
    if IsSourced(v, source, needed) {
      forall name | name in members ensures SetAsRead(v, needed, name) {
        assert name != "source" && name != "headers";
      }
    } else if v.Obj? && "source" in v.members && v.members["source"] == Str(source)
           && (forall name | name in members :: SetAsRead(v, needed, name)) {
      assert AllGiven(v, needed) by {
        forall name | name in needed && name in v.members ensures IsGiven(v.members[name]) {
          assert SetAsRead(v, needed, name);
        }
      }
      assert forall name | name in needed :: SetAsRead(v, needed, name);
      assert !HasOnly(v, {"source", "audience", "tokenFile", "issuer", "key", "headers"}) by {
        assert needed <= v.members.Keys;
        var extra :| extra in v.members && extra !in {"source"} + needed + {"headers"};
        assert extra in members ==> SetAsRead(v, needed, extra);
      }
    }
  }

  lemma ServiceForm(v: Value)
    ensures IsServiceEndpoint(v) <==> HasServiceForm(v)
  {
    hide AreStrings, IsStrings, IsCredential, HasCredentialForm;
    if v.Obj? && "binding" in v.members {
      StringsForm(v.members["binding"], {"name", "worker"});
    }
    if v.Obj? && "credential" in v.members {
      CredentialForm(v.members["credential"]);
    }
  }

  lemma SiteForm(v: Value)
    ensures IsSiteEndpoint(v) <==> HasSiteForm(v)
  {
    hide AreStrings, IsStrings;
    if v.Obj? && "binding" in v.members {
      StringsForm(v.members["binding"], {"name", "worker"});
    }
  }

  lemma BucketForm(v: Value)
    ensures IsBucketConnection(v) <==> HasBucketForm(v)
  {
  }

  lemma StoreForm(v: Value)
    ensures IsMemoryStoreConnection(v) <==> HasStoreForm(v)
  {
    hide Begins, IsStringMember, IsGiven;
    forall w ensures IsStringMember(w) <==> IsGiven(w) { Given(w); }
    if v.Obj? && "url" in v.members && v.members["url"].Str? {
      SchemesDiffer(v.members["url"].s);
    }
  }

  lemma SchemesDiffer(s: string)
    ensures Begins(s, "redis://") <==> "redis://" <= s
    ensures Begins(s, "rediss://") <==> "rediss://" <= s
    ensures !("redis://" <= s && "rediss://" <= s)
  {
    BeginsIsPrefix(s, "redis://");
    BeginsIsPrefix(s, "rediss://");
    assert "redis://" <= s ==> s[5] == ':';
    assert "rediss://" <= s ==> s[5] == 's';
  }

  lemma BeginsIsPrefix(s: string, lead: string)
    ensures Begins(s, lead) <==> lead <= s
  {
  }

  /** What the check of an edge's value accepts is a value whose JSON form has one of its kind's forms. */
  lemma AcceptedHasForm(kind: EdgeKind, v: Value)
    ensures Accepts(kind, v) <==> JsonForm(v).Ok? && HasForm(kind, JsonForm(v).value)
  {
    hide JsonForm;
    if JsonForm(v).Ok? {
      var form := JsonForm(v).value;
      match kind
      case SQL => DatabaseForm(form);
      case HTTP => ServiceForm(form);
      case Site => SiteForm(form);
      case Bucket => BucketForm(form);
      case MemoryStore => StoreForm(form);
      case OtherKind =>
    }
  }

  // Callers fields

  predicate IsLiteral(v: Value) {
    v.Str? && |v.s| > 0
  }

  /** A list of different literals without commas. */
  predicate IsNames(v: Value) {
    && v.Arr? && |v.items| > 0
    && (forall w | w in v.items :: IsLiteral(w) && forall i | 0 <= i < |w.s| :: w.s[i] != ',')
    && forall i, j | 0 <= i < j < |v.items| :: v.items[i] != v.items[j]
  }

  /** Whether v is a literal key with this kid. */
  predicate HasKid(v: Value, reader: S.KeyReader, kid: string) {
    || (IsObject(v, {"jwk"}, {}) && v.members["jwk"].Str? && reader.ofJwk(v.members["jwk"].s) == Some(kid))
    || (IsObject(v, {"pem"}, {}) && v.members["pem"].Str? && reader.ofPem(v.members["pem"].s) == Some(kid))
  }

  ghost predicate HasKeyForm(v: Value, reader: S.KeyReader) {
    || (IsObject(v, {"jwk"}, {}) && IsGiven(v.members["jwk"])
        && (IsLiteral(v.members["jwk"]) ==> exists kid :: HasKid(v, reader, kid)))
    || (IsObject(v, {"pem"}, {}) && IsGiven(v.members["pem"])
        && (IsLiteral(v.members["pem"]) ==> exists kid :: HasKid(v, reader, kid)))
  }

  ghost predicate HasKeysForm(v: Value, reader: S.KeyReader) {
    && v.Arr? && |v.items| > 0
    && (forall w | w in v.items :: HasKeyForm(w, reader))
    && forall kid, i, j | 0 <= i < j < |v.items| && HasKid(v.items[i], reader, kid) :: !HasKid(v.items[j], reader, kid)
  }

  predicate HasCallerForm(v: Value) {
    && IsObject(v, {"subject", "deployable", "serves"}, {})
    && IsGiven(v.members["subject"]) && IsLiteral(v.members["deployable"]) && IsNames(v.members["serves"])
  }

  predicate IsSubject(v: Value, subject: Value) {
    v.Obj? && "subject" in v.members && v.members["subject"] == subject
  }

  ghost predicate HasCallersForm(v: Value) {
    && v.Arr? && |v.items| > 0
    && (forall w | w in v.items :: HasCallerForm(w))
    && forall s, i, j | 0 <= i < j < |v.items| && IsSubject(v.items[i], Str(s)) :: !IsSubject(v.items[j], Str(s))
  }

  /** A whole number of seconds, from one up to the most a signed 64-bit integer holds. */
  predicate IsSeconds(v: Value) {
    v.Num? && 0.0 < v.n < 9_223_372_036_854_775_808.0 && v.n.Floor as real == v.n
  }

  const OFTEN := {"issuerAliases", "subjectClaim", "maxLifetimeSeconds"}

  ghost predicate HasIssuerForm(v: Value, reader: S.KeyReader) {
    && (|| (IsObject(v, {"issuer", "audience", "algorithms", "jwksUrl", "callers"}, OFTEN)
            && IsGiven(v.members["jwksUrl"]))
        || (IsObject(v, {"issuer", "audience", "algorithms", "keys", "callers"}, OFTEN)
            && HasKeysForm(v.members["keys"], reader)))
    && IsGiven(v.members["issuer"]) && IsGiven(v.members["audience"])
    && IsNames(v.members["algorithms"])
    && (forall a | a in v.members["algorithms"].items :: IsAlgorithm(a))
    && ("issuerAliases" !in v.members
        || (IsNames(v.members["issuerAliases"])
            && forall a | a in v.members["issuerAliases"].items :: a != v.members["issuer"]))
    && ("subjectClaim" !in v.members || IsLiteral(v.members["subjectClaim"]))
    && ("maxLifetimeSeconds" !in v.members || IsSeconds(v.members["maxLifetimeSeconds"]))
    && HasCallersForm(v.members["callers"])
  }

  predicate IsCalled(v: Value, id: Value) {
    && v.Obj?
    && (("issuer" in v.members && v.members["issuer"] == id)
        || ("issuerAliases" in v.members && v.members["issuerAliases"].Arr? && id in v.members["issuerAliases"].items))
  }

  ghost predicate HasCallersFieldForm(v: Value, reader: S.KeyReader) {
    && IsObject(v, {"issuers"}, {}) && v.members["issuers"].Arr?
    && var issuers := v.members["issuers"].items;
       && (forall w | w in issuers :: HasIssuerForm(w, reader))
       && forall id, i, j | 0 <= i < j < |issuers| && IsCalled(issuers[i], id) :: !IsCalled(issuers[j], id)
  }

  lemma NamesForm(v: Value)
    ensures S.IsLiteralList(v, {}) <==> IsNames(v)
  {
    if IsNames(v) {
      forall i | 0 <= i < |v.items| ensures S.IsListMember(v.items[i], {}) {
        assert v.items[i] in v.items;
      }
    }
  }

  /** A signing algorithm. */
  predicate IsAlgorithm(v: Value) {
    v == Str("RS256") || v == Str("ES256") || v == Str("EdDSA")
  }

  lemma AlgorithmsForm(v: Value)
    ensures S.IsLiteralList(v, S.ALGORITHMS) <==> IsNames(v) && forall a | a in v.items :: IsAlgorithm(a)
  {
    NamesForm(v);
    if v.Arr? {
      forall a | S.IsListMember(a, {}) ensures S.IsListMember(a, S.ALGORITHMS) <==> IsAlgorithm(a) {
        AlgorithmForm(a);
      }
      hide IsAlgorithm, S.IsListMember;
      assert forall i | 0 <= i < |v.items| :: v.items[i] in v.items;
      forall a | S.IsListMember(a, S.ALGORITHMS) ensures S.IsListMember(a, {}) { AllowedIsMember(a); }
    }
  }

  lemma AllowedIsMember(v: Value)
    requires S.IsListMember(v, S.ALGORITHMS)
    ensures S.IsListMember(v, {})
  {
  }

  lemma AlgorithmForm(v: Value)
    requires S.IsListMember(v, {})
    ensures S.IsListMember(v, S.ALGORITHMS) <==> IsAlgorithm(v)
  {
  }

  lemma KidForm(v: Value, reader: S.KeyReader, kid: string)
    requires S.IsKey(v, reader)
    ensures HasKid(v, reader, kid) <==> S.KidOf(v, reader) == Some(kid)
  {
  }

  lemma KeyForm(v: Value, reader: S.KeyReader)
    ensures S.IsKey(v, reader) <==> HasKeyForm(v, reader)
  {
    if S.IsKey(v, reader) && S.KidOf(v, reader).Some? {
      KidForm(v, reader, S.KidOf(v, reader).value);
    }
  }

  lemma KeysForm(v: Value, reader: S.KeyReader)
    ensures S.AreKeys(v, reader) <==> HasKeysForm(v, reader)
  {
    hide S.IsKey, S.KidOf, HasKid, HasKeyForm;
    forall w ensures S.IsKey(w, reader) <==> HasKeyForm(w, reader) { KeyForm(w, reader); }
    forall w, kid | S.IsKey(w, reader) ensures HasKid(w, reader, kid) <==> S.KidOf(w, reader) == Some(kid) {
      KidForm(w, reader, kid);
    }
    if HasKeysForm(v, reader) {
      forall i | 0 <= i < |v.items| ensures S.IsKey(v.items[i], reader) { assert v.items[i] in v.items; }
      forall i, j | 0 <= i < j < |v.items| && S.KidOf(v.items[i], reader).Some?
        ensures S.KidOf(v.items[i], reader) != S.KidOf(v.items[j], reader)
      {
        assert HasKid(v.items[i], reader, S.KidOf(v.items[i], reader).value);
      }
    }
  }

  lemma CallerForm(v: Value)
    ensures S.IsCaller(v) <==> HasCallerForm(v)
  {
    hide S.IsLiteralList, IsNames;
    if v.Obj? && "serves" in v.members {
      NamesForm(v.members["serves"]);
    }
  }

  lemma CallersForm(v: Value)
    ensures S.AreCallers(v) <==> HasCallersForm(v)
  {
    hide HasCallerForm, S.IsLiteralList, IsStringMember;
    forall w ensures S.IsCaller(w) <==> HasCallerForm(w) { CallerForm(w); }
    if HasCallersForm(v) {
      forall i | 0 <= i < |v.items| ensures S.IsCaller(v.items[i]) { assert v.items[i] in v.items; }
      forall i, j | 0 <= i < j < |v.items| && v.items[i].members["subject"].Str?
        ensures v.items[i].members["subject"] != v.items[j].members["subject"]
      {
        assert IsSubject(v.items[i], Str(v.items[i].members["subject"].s));
      }
    }
  }

  lemma IssuerForm(v: Value, reader: S.KeyReader)
    ensures S.IsIssuer(v, reader) <==> HasIssuerForm(v, reader)
  {
    hide S.IsLiteralList, IsNames, S.AreKeys, HasKeysForm, S.AreCallers, HasCallersForm;
    forall w ensures S.IsLiteralList(w, {}) <==> IsNames(w) { NamesForm(w); }
    if v.Obj? && "issuerAliases" in v.members { AliasesForm(v.members["issuerAliases"]); }
    if v.Obj? && "algorithms" in v.members { AlgorithmsForm(v.members["algorithms"]); }
    if v.Obj? && "keys" in v.members { KeysForm(v.members["keys"], reader); }
    if v.Obj? && "callers" in v.members { CallersForm(v.members["callers"]); }
  }

  lemma AliasesForm(v: Value)
    ensures S.IsLiteralList(v, {}) ==> v.Arr?
  {
  }

  /** What the check of a callers field accepts is a value whose JSON form has a callers field's form. */
  lemma AcceptedCallersHaveForm(v: Value, reader: S.KeyReader)
    ensures S.AcceptsCallers(v, reader) <==> JsonForm(v).Ok? && HasCallersFieldForm(JsonForm(v).value, reader)
  {
    hide JsonForm, S.IsIssuer, HasIssuerForm;
    forall w ensures S.IsIssuer(w, reader) <==> HasIssuerForm(w, reader) { IssuerForm(w, reader); }
    if JsonForm(v).Ok? {
      CallersFieldForm(JsonForm(v).value, reader);
    }
  }

  lemma CallersFieldForm(v: Value, reader: S.KeyReader)
    requires forall w :: S.IsIssuer(w, reader) <==> HasIssuerForm(w, reader)
    ensures S.IsServiceAuth(v, reader) <==> HasCallersFieldForm(v, reader)
  {
    hide S.IsIssuer, HasIssuerForm;
    if S.IsServiceAuth(v, reader) {
      var issuers := v.members["issuers"].items;
      forall id, i, j | 0 <= i < j < |issuers| && IsCalled(issuers[i], id) ensures !IsCalled(issuers[j], id) {
        IssuerHasId(issuers[i], reader);
        IssuerHasId(issuers[j], reader);
        assert S.Apart(issuers[i], issuers[j]);
        assert S.NamedBy(issuers[i], id);
      }
    }
    if HasCallersFieldForm(v, reader) {
      var issuers := v.members["issuers"].items;
      forall i | 0 <= i < |issuers| ensures S.IsIssuer(issuers[i], reader) { assert issuers[i] in issuers; }
      forall i, j | 0 <= i < j < |issuers| ensures S.Apart(issuers[i], issuers[j]) {
        forall id | S.NamedBy(issuers[i], id) ensures !S.NamedBy(issuers[j], id) {
          assert IsCalled(issuers[i], id);
        }
      }
    }
  }

  lemma IssuerHasId(v: Value, reader: S.KeyReader)
    requires S.IsIssuer(v, reader)
    ensures v.Obj? && "issuer" in v.members
  {
  }
}
