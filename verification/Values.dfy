/** JSON values that hold references: their JSON form, its decoding, and the references a value holds. */
module Values {
  import opened Basics

  /** A JSON value, or a reference: an output of a resource, a parameter, or strings and references joined. */
  datatype Value =
    | Null
    | Bool(b: bool)
    | Num(n: real)
    | Str(s: string)
    | Arr(items: seq<Value>)
    | Obj(members: map<string, Value>)
    | Output(resource: string, name: string)
    | Parameter(parameter: string)
    | Concat(parts: seq<Value>)

  datatype Decoded = Ok(value: Value) | Malformed

  predicate IsReference(v: Value) {
    v.Output? || v.Parameter? || v.Concat?
  }

  predicate IsReserved(key: string) {
    key == "$output" || key == "$parameter" || key == "$concat"
  }

  /** An object that is always read as a reference: its one key is a reference's. */
  predicate LooksLikeReference(m: map<string, Value>) {
    |m| == 1 && exists k :: k in m && IsReserved(k)
  }

  /** The JSON form of a value. */
  function Encode(v: Value): Value {
    match v
    case Output(resource, name) => Obj(map["$output" := Obj(map["resource" := Str(resource), "name" := Str(name)])])
    case Parameter(p) => Obj(map["$parameter" := Str(p)])
    case Concat(parts) => Obj(map["$concat" := Arr(EncodeAll(parts))])
    case Arr(items) => Arr(EncodeAll(items))
    case Obj(m) => Obj(map k | k in m :: Encode(m[k]))
    case _ => v
  }

  function EncodeAll(vs: seq<Value>): (r: seq<Value>)
    ensures |r| == |vs|
  {
    if vs == [] then [] else [Encode(vs[0])] + EncodeAll(vs[1..])
  }

  /** Turns the JSON form of a value back into one that holds references, or refuses a malformed reference. */
  function Decode(v: Value): Decoded {
    match v
    case Obj(m) =>
      if |m| == 1 && "$output" in m then DecodeOutput(m["$output"])
      else if |m| == 1 && "$parameter" in m then DecodeParameter(m["$parameter"])
      else if |m| == 1 && "$concat" in m then DecodeConcat(m["$concat"])
      else if forall k | k in m :: Decode(m[k]).Ok? then Ok(Obj(map k | k in m :: Decode(m[k]).value))
      else Malformed
    case Arr(items) =>
      if AllDecode(items) then Ok(Arr(DecodeAll(items))) else Malformed
    case _ => Ok(v)
  }

  function DecodeParameter(v: Value): Decoded {
    if v.Str? && v.s != "" then Ok(Parameter(v.s)) else Malformed
  }

  function DecodeOutput(v: Value): Decoded {
    if v.Obj? && |v.members| == 2 && "resource" in v.members && "name" in v.members then
      var resource, name := v.members["resource"], v.members["name"];
      if resource.Str? && name.Str? && resource.s != "" && name.s != "" then Ok(Output(resource.s, name.s)) else Malformed
    else Malformed
  }

  function DecodeConcat(v: Value): Decoded {
    if v.Arr? && AllDecode(v.items) && forall p | p in DecodeAll(v.items) ::
      IsPart(p) then Ok(Concat(DecodeAll(v.items)))
    else Malformed
  }

  /** What a concatenation holds: a string, an output or a parameter. */
  predicate IsPart(v: Value) {
    v.Str? || v.Output? || v.Parameter?
  }

  predicate AllDecode(vs: seq<Value>)
    decreases vs, 0
  {
    forall i | 0 <= i < |vs| :: Decode(vs[i]).Ok?
  }

  function DecodeAll(vs: seq<Value>): (r: seq<Value>)
    requires AllDecode(vs)
    ensures |r| == |vs| && forall i | 0 <= i < |vs| :: r[i] == Decode(vs[i]).value
    decreases vs, 1
  {
    if vs == [] then [] else [Decode(vs[0]).value] + DecodeAll(vs[1..])
  }

  // Well-formed values

  /** A value whose references are whole and flat, and whose objects never look like one. */
  predicate WellFormed(v: Value) {
    match v
    case Output(resource, name) => resource != "" && name != ""
    case Parameter(p) => p != ""
    case Concat(parts) => forall i | 0 <= i < |parts| :: IsPart(parts[i]) && WellFormed(parts[i])
    case Arr(items) => forall i | 0 <= i < |items| :: WellFormed(items[i])
    case Obj(m) => !LooksLikeReference(m) && forall k | k in m :: WellFormed(m[k])
    case _ => true
  }

  /** A value of JSON alone, without references. */
  predicate Plain(v: Value) {
    match v
    case Arr(items) => forall i | 0 <= i < |items| :: Plain(items[i])
    case Obj(m) => forall k | k in m :: Plain(m[k])
    case _ => !IsReference(v)
  }

  lemma {:induction false} EncodeIsPlain(v: Value)
    ensures Plain(Encode(v))
  {
    match v
    case Concat(parts) => EncodeAllIsPlain(parts);
    case Arr(items) => EncodeAllIsPlain(items);
    case Obj(m) => forall k | k in m ensures Plain(Encode(m[k])) { EncodeIsPlain(m[k]); }
    case _ =>
  }

  lemma {:induction false} EncodeAllIsPlain(vs: seq<Value>)
    ensures Plain(Arr(EncodeAll(vs)))
  {
    if vs != [] {
      EncodeIsPlain(vs[0]);
      EncodeAllIsPlain(vs[1..]);
      var rest := Arr(EncodeAll(vs[1..]));
      assert forall i | 0 <= i < |rest.items| :: Plain(rest.items[i]);
    }
  }

  lemma SingleKey(m: map<string, Value>, k: string, k': string)
    requires |m| == 1 && k in m && k' in m
    ensures k == k'
  {
    if k != k' {
      assert {k, k'} <= m.Keys;
      SubsetSize({k, k'}, m.Keys);
    }
  }

  /** Decoding the JSON form of a well-formed value gives the value back. */
  lemma {:induction false} DecodeUndoesEncode(v: Value)
    requires WellFormed(v)
    ensures Decode(Encode(v)) == Ok(v)
  {
    match v
    case Output(resource, name) =>
      var inner := map["resource" := Str(resource), "name" := Str(name)];
      assert Encode(v) == Obj(map["$output" := Obj(inner)]);
      assert |inner| == 2;
    case Parameter(p) =>
      assert "$output" !in map["$parameter" := Str(p)];
    case Concat(parts) =>
      DecodeUndoesEncodeAll(parts);
      var m := map["$concat" := Arr(EncodeAll(parts))];
      assert "$output" !in m && "$parameter" !in m && |m| == 1;
    case Arr(items) =>
      DecodeUndoesEncodeAll(items);
    case Obj(m) =>
      DecodeUndoesEncodeObject(v);
    case _ =>
  }

  lemma {:induction false} DecodeUndoesEncodeObject(v: Value)
    requires v.Obj? && WellFormed(v)
    ensures Decode(Encode(v)) == Ok(v)
    decreases v, 0
  {
    hide Decode;
    var m := v.members;
    var e := map k | k in m :: Encode(m[k]);
    forall k | k in m ensures Decode(e[k]) == Ok(m[k]) { DecodeUndoesEncode(m[k]); }
    DecodesMembers(e, m);
  }

  /** An object that looks like no reference decodes member by member. */
  lemma DecodesMembers(e: map<string, Value>, m: map<string, Value>)
    requires e.Keys == m.Keys && !LooksLikeReference(m)
    requires forall k | k in m :: Decode(e[k]) == Ok(m[k])
    ensures Decode(Obj(e)) == Ok(Obj(m))
  {
    hide DecodeOutput, DecodeParameter, DecodeConcat;
    SameSize(m, e);
    assert IsReserved("$output") && IsReserved("$parameter") && IsReserved("$concat");
    assert |e| == 1 ==> "$output" !in e && "$parameter" !in e && "$concat" !in e;
    forall k | k in e ensures Decode(e[k]).Ok? { assert k in m; }
    var decoded := Decode(Obj(e)).value.members;
    assert decoded.Keys == m.Keys && forall k | k in m :: decoded[k] == m[k];
    assert decoded == m;
  }

  lemma SameSize(m: map<string, Value>, e: map<string, Value>)
    requires e.Keys == m.Keys
    ensures |e| == |m|
  {
  }

  lemma {:induction false} DecodeUndoesEncodeAll(vs: seq<Value>)
    requires forall i | 0 <= i < |vs| :: WellFormed(vs[i])
    ensures AllDecode(EncodeAll(vs)) && DecodeAll(EncodeAll(vs)) == vs
  {
    if vs != [] {
      DecodeUndoesEncode(vs[0]);
      DecodeUndoesEncodeAll(vs[1..]);
      var e := EncodeAll(vs);
      assert e[1..] == EncodeAll(vs[1..]);
      forall i | 0 <= i < |e| ensures Decode(e[i]).Ok? {
        if i > 0 { assert e[i] == e[1..][i - 1]; }
      }
    }
  }

  /** What decoding plain JSON gives is well formed, and its JSON form is the JSON decoded. */
  lemma {:induction false} EncodeUndoesDecode(j: Value)
    requires Plain(j) && Decode(j).Ok?
    ensures WellFormed(Decode(j).value) && Encode(Decode(j).value) == j
  {
    match j
    case Arr(items) => EncodeUndoesDecodeAll(items);
    case Obj(m) =>
      if LooksLikeReference(m) {
        EncodeUndoesDecodeReference(j);
      } else {
        EncodeUndoesDecodeObject(j);
      }
    case _ =>
  }

  lemma {:induction false} EncodeUndoesDecodeObject(j: Value)
    requires j.Obj? && !LooksLikeReference(j.members) && Plain(j) && Decode(j).Ok?
    ensures WellFormed(Decode(j).value) && Encode(Decode(j).value) == j
    decreases j, 0
  {
    hide Decode;
    var m := j.members;
    MembersDecode(m);
    var d := map k | k in m :: Decode(m[k]).value;
    SameKeysLookAlike(m, d);
    DecodesMembers(m, d);
    forall k | k in m ensures WellFormed(d[k]) && Encode(d[k]) == m[k] { EncodeUndoesDecode(m[k]); }
    assert (map k | k in d :: Encode(d[k])) == m;
  }

  lemma {:induction false} EncodeUndoesDecodeReference(j: Value)
    requires j.Obj? && LooksLikeReference(j.members) && Plain(j) && Decode(j).Ok?
    ensures WellFormed(Decode(j).value) && Encode(Decode(j).value) == j
    decreases j, 0
  {
    var m := j.members;
    var key :| key in m && IsReserved(key);
    forall k | k in m ensures k == key { SingleKey(m, k, key); }
    assert m == map[key := m[key]];
    var inner := m[key];
    if key == "$output" {
      var o := inner.members;
      assert o.Keys == {"resource", "name"} by {
        SubsetSize({"resource", "name"}, o.Keys);
        if k :| k in o && k != "resource" && k != "name" { SubsetSize({"resource", "name", k}, o.Keys); }
      }
      assert o == map["resource" := o["resource"], "name" := o["name"]];
    } else if key == "$concat" {
      assert inner < j;
      EncodeUndoesDecodeAll(inner.items);
      var parts := DecodeAll(inner.items);
      assert forall i | 0 <= i < |parts| :: parts[i] in parts;
    }
  }

  lemma {:induction false} EncodeUndoesDecodeAll(js: seq<Value>)
    requires (forall i | 0 <= i < |js| :: Plain(js[i])) && AllDecode(js)
    ensures var vs := DecodeAll(js);
      EncodeAll(vs) == js && forall i | 0 <= i < |vs| :: WellFormed(vs[i])
  {
    if js != [] {
      EncodeUndoesDecode(js[0]);
      EncodeUndoesDecodeAll(js[1..]);
    }
  }

  /** A plain JSON tree decodes exactly when it is the JSON form of a well-formed value, which is then unique. */
  lemma DecodesExactlyForms(j: Value)
    requires Plain(j)
    ensures Decode(j).Ok? <==> exists v :: WellFormed(v) && Encode(v) == j
    ensures forall v | WellFormed(v) && Encode(v) == j :: Decode(j) == Ok(v)
  {
    if Decode(j).Ok? {
      EncodeUndoesDecode(j);
    }
    forall v | WellFormed(v) && Encode(v) == j ensures Decode(j) == Ok(v) {
      DecodeUndoesEncode(v);
    }
  }

  /** Decoding again changes nothing, whatever the value held before. */
  lemma {:induction false} DecodeIsIdempotent(j: Value)
    requires Decode(j).Ok?
    ensures Decode(Decode(j).value) == Decode(j)
  {
    match j
    case Arr(items) => DecodeAllIsIdempotent(items);
    case Obj(m) =>
      if LooksLikeReference(m) {
        var key :| key in m && IsReserved(key);
        forall k | k in m ensures k == key { SingleKey(m, k, key); }
        assert IsReference(Decode(j).value);
      } else {
        DecodeObjectIsIdempotent(j);
      }
    case _ =>
  }

  lemma {:induction false} DecodeObjectIsIdempotent(j: Value)
    requires j.Obj? && !LooksLikeReference(j.members) && Decode(j).Ok?
    ensures Decode(Decode(j).value) == Decode(j)
    decreases j, 0
  {
    hide Decode;
    var m := j.members;
    MembersDecode(m);
    var d := map k | k in m :: Decode(m[k]).value;
    forall k | k in m ensures Decode(d[k]) == Ok(d[k]) { DecodeIsIdempotent(m[k]); }
    SameKeysLookAlike(m, d);
    DecodesMembers(m, d);
    DecodesMembers(d, d);
  }

  lemma MembersDecode(m: map<string, Value>)
    requires !LooksLikeReference(m) && Decode(Obj(m)).Ok?
    ensures forall k | k in m :: Decode(m[k]).Ok?
  {
    hide DecodeOutput, DecodeParameter, DecodeConcat;
    assert IsReserved("$output") && IsReserved("$parameter") && IsReserved("$concat");
  }

  lemma SameKeysLookAlike(m: map<string, Value>, e: map<string, Value>)
    requires e.Keys == m.Keys
    ensures LooksLikeReference(e) <==> LooksLikeReference(m)
  {
    SameSize(m, e);
    assert forall k :: k in e <==> k in m;
  }

  lemma {:induction false} DecodeAllIsIdempotent(js: seq<Value>)
    requires AllDecode(js)
    ensures AllDecode(DecodeAll(js)) && DecodeAll(DecodeAll(js)) == DecodeAll(js)
  {
    if js != [] {
      DecodeIsIdempotent(js[0]);
      DecodeAllIsIdempotent(js[1..]);
      var d := DecodeAll(js);
      assert d[1..] == DecodeAll(js[1..]);
      forall i | 0 <= i < |d| ensures Decode(d[i]).Ok? {
        if i > 0 { assert d[i] == d[1..][i - 1]; }
      }
    }
  }

  /** A value as its JSON decodes: what the checks and the encodings read. */
  function JsonForm(v: Value): Decoded {
    Decode(Encode(v))
  }

  /** The JSON form of any value, when there is one, is well formed, and is its own. */
  lemma JsonFormIsWellFormed(v: Value)
    requires JsonForm(v).Ok?
    ensures WellFormed(JsonForm(v).value) && JsonForm(JsonForm(v).value) == JsonForm(v)
  {
    EncodeIsPlain(v);
    EncodeUndoesDecode(Encode(v));
    DecodeUndoesEncode(JsonForm(v).value);
  }

  /** A reference is written as an object with one member, which says what it is to. */
  lemma ReferencesAreWritten(resource: string, name: string, parameter: string, parts: seq<Value>)
    ensures var written := Encode(Output(resource, name));
      && written.Obj? && written.members.Keys == {"$output"}
      && written.members["$output"] == Obj(map["name" := Str(name), "resource" := Str(resource)])
    ensures Encode(Parameter(parameter)) == Obj(map["$parameter" := Str(parameter)])
    ensures var written := Encode(Concat(parts));
      && written.Obj? && written.members.Keys == {"$concat"} && written.members["$concat"].Arr?
      && |written.members["$concat"].items| == |parts|
      && forall i | 0 <= i < |parts| :: written.members["$concat"].items[i] == Encode(parts[i])
  {
    EachIsEncoded(parts);
  }

  lemma {:induction false} EachIsEncoded(vs: seq<Value>)
    ensures forall i | 0 <= i < |vs| :: EncodeAll(vs)[i] == Encode(vs[i])
  {
    if vs != [] {
      EachIsEncoded(vs[1..]);
    }
  }
}
