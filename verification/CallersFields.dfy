/** What encoding keeps of the callers fields the checks accept. */
module CallersFields {
  import opened Values
  import opened DerivedVariables
  import opened CamelNames
  import opened Shapes
  import opened ShapeReader
  import opened DerivedContracts
  import opened DerivedFields
  import S = ServiceAuth

  const KEY := map["jwk" := Text, "pem" := Text]
  const CALLER := map["subject" := Text, "deployable" := Text, "serves" := Texts]
  const ISSUER := map[
    "issuer" := Text, "issuerAliases" := Texts, "audience" := Text, "algorithms" := Texts, "jwksUrl" := Text,
    "keys" := ListOf(Record(KEY)), "subjectClaim" := Text, "maxLifetimeSeconds" := Count,
    "callers" := ListOf(Record(CALLER))]

  /** The shape of a callers field: lists of issuers, each with lists of keys and of callers. */
  const CALLERS_FIELD := Record(map["issuers" := ListOf(Record(ISSUER))])

  // What is accepted fits the shape

  lemma ListFits(v: Value, allowed: set<string>)
    requires S.IsLiteralList(v, allowed)
    ensures Fits(Texts, v)
  {
  }

  lemma KeyFits(v: Value, reader: S.KeyReader)
    requires S.IsKey(v, reader)
    ensures Fits(Record(KEY), v)
  {
  }

  lemma CallerFits(v: Value)
    requires S.IsCaller(v)
    ensures Fits(Record(CALLER), v)
  {
  }

  lemma KeysFit(v: Value, reader: S.KeyReader)
    requires S.AreKeys(v, reader)
    ensures Fits(ListOf(Record(KEY)), v)
  {
    hide S.IsKey;
    forall i | 0 <= i < |v.items| ensures v.items[i].Obj? && Fits(Record(KEY), v.items[i]) {
      KeyFits(v.items[i], reader);
    }
  }

  lemma CallersFit(v: Value)
    requires S.AreCallers(v)
    ensures Fits(ListOf(Record(CALLER)), v)
  {
    forall i | 0 <= i < |v.items| ensures v.items[i].Obj? && Fits(Record(CALLER), v.items[i]) {
      CallerFits(v.items[i]);
    }
  }

  lemma LifetimeFits(v: Value)
    requires S.IsLifetime(v)
    ensures Fits(Count, v)
  {
  }

  lemma IssuerFits(v: Value, reader: S.KeyReader)
    requires S.IsIssuer(v, reader)
    ensures Fits(Record(ISSUER), v)
  {
    hide Fits, S.IsLiteralList, S.AreKeys, S.AreCallers, S.IsLifetime, IsStringMember;
    forall k | k in v.members ensures k in ISSUER && Fits(ISSUER[k], v.members[k]) {
      IssuerMemberFits(v, reader, k);
    }
    RecordFits(ISSUER, v);
  }

  lemma IssuerMemberFits(v: Value, reader: S.KeyReader, k: string)
    requires S.IsIssuer(v, reader) && k in v.members
    ensures k in ISSUER && Fits(ISSUER[k], v.members[k])
  {
    hide Fits, S.IsLiteralList, S.AreKeys, S.AreCallers, S.IsLifetime, IsStringMember;
    var inner := v.members[k];
    if k == "issuerAliases" {
      ListFits(inner, {});
    } else if k == "algorithms" {
      ListFits(inner, S.ALGORITHMS);
    } else if k == "keys" {
      KeysFit(inner, reader);
    } else if k == "callers" {
      CallersFit(inner);
    } else if k == "maxLifetimeSeconds" {
      LifetimeFits(inner);
    } else {
      assert IsStringMember(inner) by {
        if k == "subjectClaim" { TextIsString(inner); }
      }
      StringFits(inner);
    }
  }

  lemma TextIsString(v: Value)
    requires S.IsText(v)
    ensures IsStringMember(v)
  {
  }

  lemma AcceptedCallersFit(v: Value, reader: S.KeyReader)
    requires S.IsServiceAuth(v, reader)
    ensures Fits(CALLERS_FIELD, v)
  {
    hide Fits, S.IsIssuer;
    var issuers := v.members["issuers"];
    forall i | 0 <= i < |issuers.items| ensures issuers.items[i].Obj? && Fits(Record(ISSUER), issuers.items[i]) {
      IssuerFits(issuers.items[i], reader);
      assert issuers.items[i].Obj? by { ObjectOfIssuer(issuers.items[i], reader); }
    }
    ListOfFits(Record(ISSUER), issuers);
    RecordFits(CALLERS_FIELD.fields, v);
  }

  lemma ObjectOfIssuer(v: Value, reader: S.KeyReader)
    requires S.IsIssuer(v, reader)
    ensures v.Obj?
  {
  }

  lemma ListOfFits(item: Shape, v: Value)
    requires v.Arr? && forall i | 0 <= i < |v.items| :: v.items[i].Obj? && Fits(item, v.items[i])
    ensures Fits(ListOf(item), v)
  {
  }

  // Its members are told apart

  lemma IssuerNamesAreCamel()
    ensures IsCamel("issuer") && IsCamel("issuerAliases") && IsCamel("audience") && IsCamel("algorithms")
  {
  }

  lemma MoreIssuerNamesAreCamel()
    ensures IsCamel("jwksUrl") && IsCamel("keys") && IsCamel("subjectClaim") && IsCamel("callers") && IsCamel("issuers")
  {
  }

  lemma LifetimeNameIsCamel()
    ensures IsCamel("maxLifetimeSeconds")
  {
  }

  lemma CallerNamesAreCamel()
    ensures IsCamel("jwk") && IsCamel("pem") && IsCamel("subject") && IsCamel("deployable") && IsCamel("serves")
  {
  }

  lemma ListSeparable(fields: map<string, Shape>)
    requires Separable(Record(fields))
    ensures Separable(ListOf(Record(fields)))
  {
  }

  lemma InnerListsSeparable()
    ensures Separable(ListOf(Record(KEY))) && Separable(ListOf(Record(CALLER)))
  {
    hide IsCamel, Separable;
    CallerNamesAreCamel();
    LeavesSeparable(KEY);
    LeavesSeparable(CALLER);
    ListSeparable(KEY);
    ListSeparable(CALLER);
  }

  lemma IssuerFieldsSeparable(k: string)
    requires k in ISSUER
    ensures IsCamel(k) && Separable(ISSUER[k])
  {
    hide IsCamel, Separable;
    InnerListsSeparable();
    LeafSeparable(Text);
    LeafSeparable(Texts);
    LeafSeparable(Count);
    IssuerNamesAreCamel();
    MoreIssuerNamesAreCamel();
    LifetimeNameIsCamel();
  }

  lemma IssuerFieldsNest(k: string, k': string)
    requires k in ISSUER && k' in ISSUER && k != k' && !IsLeaf(ISSUER[k])
    ensures !(k <= k')
  {
    assert k[0] != k'[0];
  }

  lemma CallersFieldSeparable()
    ensures Separable(CALLERS_FIELD)
  {
    hide IsCamel, Separable;
    forall k | k in ISSUER ensures IsCamel(k) && Separable(ISSUER[k]) { IssuerFieldsSeparable(k); }
    forall k, k' | k in ISSUER && k' in ISSUER && k != k' && !IsLeaf(ISSUER[k]) ensures !(k <= k') {
      IssuerFieldsNest(k, k');
    }
    CamelSeparable(ISSUER);
    ListSeparable(ISSUER);
    MoreIssuerNamesAreCamel();
    CamelSeparable(CALLERS_FIELD.fields);
  }

  // Lifetimes

  /** Every lifetime is one the encoding takes. */
  predicate LifetimesInRange(issuers: seq<Value>) {
    forall i | 0 <= i < |issuers| :: LifetimeInRange(issuers[i])
  }

  predicate LifetimeInRange(issuer: Value) {
    issuer.Obj? && "maxLifetimeSeconds" in issuer.members && issuer.members["maxLifetimeSeconds"].Num?
    ==> issuer.members["maxLifetimeSeconds"].n <= MAX_WHOLE as real
  }

  lemma CountlessMember(k: string)
    requires k in ISSUER && k != "maxLifetimeSeconds"
    ensures Countless(ISSUER[k])
  {
  }

  lemma IssuerBounded(v: Value, reader: S.KeyReader)
    requires S.IsIssuer(v, reader) && Fits(Record(ISSUER), v)
    ensures Bounded(Record(ISSUER), v) <==> LifetimeInRange(v)
  {
    hide Fits, S.IsIssuer, Bounded, Countless;
    MemberFits(ISSUER, v);
    BoundedMembers(Record(ISSUER), v);
    forall k | k in v.members && k != "maxLifetimeSeconds" ensures Bounded(ISSUER[k], v.members[k]) {
      CountlessMember(k);
      NothingUncounted(ISSUER[k], v.members[k]);
    }
    if "maxLifetimeSeconds" in v.members {
      LifetimeOfIssuer(v, reader);
      LifetimeBounded(v.members["maxLifetimeSeconds"]);
    }
  }

  lemma MemberFits(fields: map<string, Shape>, v: Value)
    requires Fits(Record(fields), v)
    ensures v.Obj? && forall k | k in v.members :: k in fields && Fits(fields[k], v.members[k])
  {
  }

  lemma LifetimeOfIssuer(v: Value, reader: S.KeyReader)
    requires S.IsIssuer(v, reader) && "maxLifetimeSeconds" in v.members
    ensures S.IsLifetime(v.members["maxLifetimeSeconds"])
  {
  }

  lemma LifetimeBounded(v: Value)
    requires S.IsLifetime(v)
    ensures Bounded(Count, v) <==> v.n <= MAX_WHOLE as real
  {
  }

  lemma CallersBounded(v: Value, reader: S.KeyReader)
    requires S.IsServiceAuth(v, reader) && Fits(CALLERS_FIELD, v)
    ensures Bounded(CALLERS_FIELD, v) <==> LifetimesInRange(v.members["issuers"].items)
  {
    hide S.IsIssuer, LifetimeInRange, S.AllApart;
    var issuers := v.members["issuers"];
    assert Fits(ListOf(Record(ISSUER)), issuers);
    assert forall k | k in v.members :: k == "issuers";
    assert Bounded(CALLERS_FIELD, v) <==> Bounded(ListOf(Record(ISSUER)), issuers);
    ListBounded(issuers, reader);
  }

  lemma ListBounded(v: Value, reader: S.KeyReader)
    requires Fits(ListOf(Record(ISSUER)), v)
    requires forall i | 0 <= i < |v.items| :: S.IsIssuer(v.items[i], reader)
    ensures Bounded(ListOf(Record(ISSUER)), v) <==> LifetimesInRange(v.items)
  {
    hide S.IsIssuer, LifetimeInRange;
    forall i | 0 <= i < |v.items| ensures Bounded(Record(ISSUER), v.items[i]) <==> LifetimeInRange(v.items[i]) {
      IssuerBounded(v.items[i], reader);
    }
  }

  // Encoding a callers field

  /** An accepted callers field encodes exactly when none of its lifetimes is above the largest whole
      number a variable may hold; its variables are then distinct, and a server set exactly those
      variables reads the field back, through its lists of issuers, keys and callers. */
  lemma {:induction false} AcceptedCallersDerive(reader: S.KeyReader, field: string, value: Value, r: Encoded, env: Env)
    requires S.AcceptsCallers(value, reader) && IsDerivation(field, value, r)
    ensures r.Vars? <==> LifetimesInRange(JsonForm(value).value.members["issuers"].items)
    ensures r.Vars? ==>
      DistinctNames(r.vars) && (IsEnv(r.vars, env) ==> Read(CALLERS_FIELD, field, env) == JsonForm(value).value)
  {
    hide Walk, Fits, Separable, Bounded, Read, DistinctNames, IsEnv, JsonForm, S.IsIssuer;
    var v := JsonForm(value).value;
    AcceptedCallersFit(v, reader);
    CallersFieldSeparable();
    CallersBounded(v, reader);
    WalkFits(CALLERS_FIELD, field, "", v);
    if r.Vars? {
      var vars := Walk(field, "", v).vars;
      SortingKeepsDistinct(vars, r.vars);
      SameElements(vars, r.vars);
      if IsEnv(r.vars, env) {
        SortingKeepsEnv(vars, r.vars, env);
        VariablesReadBack(CALLERS_FIELD, field, v, env);
      }
    }
  }

  const ONE_CALLER := Obj(map["subject" := Str("s"), "deployable" := Str("d"), "serves" := Arr([Str("api")])])

  const LONG_LIVED_ISSUER := Obj(map[
    "issuer" := Str("i"), "audience" := Str("a"), "algorithms" := Arr([Str("RS256")]), "jwksUrl" := Str("u"),
    "maxLifetimeSeconds" := Num((MAX_WHOLE + 2) as real), "callers" := Arr([ONE_CALLER])])

  const LONG_LIVED := Obj(map["issuers" := Arr([LONG_LIVED_ISSUER])])

  lemma CallerIsAccepted()
    ensures S.AreCallers(Arr([ONE_CALLER])) && WellFormed(ONE_CALLER)
  {
    assert S.IsCaller(ONE_CALLER);
  }

  lemma IssuerIsAccepted(reader: S.KeyReader)
    ensures S.IsIssuer(LONG_LIVED_ISSUER, reader)
  {
    hide S.AreCallers, ONE_CALLER, S.IsLifetime;
    CallerIsAccepted();
    LifetimeIsAccepted();
    assert S.IsLiteralList(Arr([Str("RS256")]), S.ALGORITHMS);
  }

  lemma LifetimeIsAccepted()
    ensures S.IsLifetime(Num((MAX_WHOLE + 2) as real))
  {
  }

  lemma IssuerIsWellFormed()
    ensures WellFormed(LONG_LIVED_ISSUER)
  {
    hide ONE_CALLER;
    CallerIsAccepted();
    assert |LONG_LIVED_ISSUER.members| == 6;
  }

  lemma LongLivedIsWellFormed()
    ensures WellFormed(LONG_LIVED)
  {
    hide LONG_LIVED_ISSUER;
    IssuerIsWellFormed();
  }

  lemma LongLifetimeIsOutOfRange()
    ensures !LifetimeInRange(LONG_LIVED_ISSUER)
  {
  }

  /** A callers field the checks accept and the encoding refuses: its one issuer's lifetime is above the
      largest whole number. */
  lemma {:induction false} LongLifetimeIsRefused(reader: S.KeyReader, field: string, r: Encoded)
    requires IsDerivation(field, LONG_LIVED, r)
    ensures S.AcceptsCallers(LONG_LIVED, reader) && r.Fault?
  {
    hide S.IsIssuer, IsDerivation, LONG_LIVED_ISSUER, LifetimeInRange, WellFormed, Encode, Decode, Read, IsEnv;
    hide DistinctNames;
    LongLivedIsWellFormed();
    DecodeUndoesEncode(LONG_LIVED);
    IssuerIsAccepted(reader);
    LongLifetimeIsOutOfRange();
    assert S.IsServiceAuth(LONG_LIVED, reader);
    var issuers := LONG_LIVED.members["issuers"].items;
    assert issuers[0] == LONG_LIVED_ISSUER;
    assert !LifetimesInRange(issuers);
    AcceptedCallersDerive(reader, field, LONG_LIVED, r, map[]);
  }
}
