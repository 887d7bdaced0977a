/** Which variables a derived value has: one for each place in it that holds one, named by the steps to it. */
module VariablePlaces {
  import opened Order
  import opened Places
  import opened Text
  import opened Values
  import opened DerivedVariables

  // Names, by their texts

  /** Whether a word of a member's name starts at i, after its first: at a capital after a small letter or a digit. */
  predicate StartsWord(member: string, i: nat) {
    0 < i < |member| && IsUpper(member[i]) && (IsLower(member[i - 1]) || IsDigit(member[i - 1]))
  }

  /** How many words start before n. */
  function Starts(member: string, n: nat): nat {
    |set i: nat | i < n && StartsWord(member, i)|
  }

  predicate IsCapitalOf(d: char, c: char) {
    d as int == if 'a' <= c <= 'z' then c as int - 32 else c as int
  }

  /** Whether s is a member's name in upper snake case: its characters in upper case, and before each word but the
      first an underscore. */
  predicate IsSnakeOf(s: string, member: string) {
    |s| == |member| + Starts(member, |member|)
    && forall i | 0 <= i < |member| :: HasSnakeAt(s, member, i)
  }

  predicate HasSnakeAt(s: string, member: string, i: nat)
    requires i < |member|
  {
    var at := i + Starts(member, i + 1);
    at < |s| && IsCapitalOf(s[at], member[i]) && (StartsWord(member, i) ==> at > 0 && s[at - 1] == '_')
  }

  lemma StartsOneMore(member: string, n: nat)
    ensures Starts(member, n + 1) == Starts(member, n) + if StartsWord(member, n) then 1 else 0
  {
    var before, after := (set i: nat | i < n && StartsWord(member, i)),
                         (set i: nat | i < n + 1 && StartsWord(member, i));
    assert after == before + if StartsWord(member, n) then {n} else {};
  }

  /** Whether the character at j of a member's name is where it should be in what is written of it after `from`. */
  predicate ShowsAt(s: string, from: int, member: string, j: nat)
    requires j < |member|
  {
    var at := j + Starts(member, j + 1) - from;
    0 <= at < |s| && IsCapitalOf(s[at], member[j]) && (StartsWord(member, j) ==> at > 0 && s[at - 1] == '_')
  }

  lemma PieceIsSnake(member: string, i: nat)
    requires i < |member|
    ensures var piece := SegmentPiece(member, i);
      && |piece| == (if StartsWord(member, i) then 2 else 1)
      && IsCapitalOf(piece[|piece| - 1], member[i]) && (StartsWord(member, i) ==> piece[0] == '_')
  {
  }

  lemma {:induction false} SegmentSize(member: string, i: nat)
    requires i <= |member|
    ensures |SegmentFrom(member, i)| == |member| - i + Starts(member, |member|) - Starts(member, i)
    decreases |member| - i
  {
    hide Starts, StartsWord, SegmentPiece;
    if i < |member| {
      StartsOneMore(member, i);
      PieceIsSnake(member, i);
      SegmentSize(member, i + 1);
    }
  }

  lemma {:induction false} SegmentShows(member: string, i: nat, j: nat)
    requires i <= j < |member|
    ensures ShowsAt(SegmentFrom(member, i), i + Starts(member, i), member, j)
    decreases j - i
  {
    hide Starts, StartsWord, SegmentPiece;
    StartsOneMore(member, i);
    PieceIsSnake(member, i);
    if i < j {
      SegmentShows(member, i + 1, j);
      assert SegmentFrom(member, i) == SegmentPiece(member, i) + SegmentFrom(member, i + 1);
    }
  }

  lemma SegmentIsSnake(member: string)
    ensures IsSnakeOf(Segment(member), member)
  {
    SegmentSize(member, 0);
    assert (set i: nat | i < 0 && StartsWord(member, i)) == {};
    assert Starts(member, 0) == 0;
    forall i | 0 <= i < |member| ensures HasSnakeAt(Segment(member), member, i) {
      SegmentShows(member, 0, i);
    }
  }

  /** Whether s is the decimal of n, without zeros before it. */
  predicate IsDecimalOf(s: string, n: nat) {
    s != "" && AllDigits(s) && ParseNat(s) == n && (|s| > 1 ==> s[0] != '0')
  }

  lemma {:induction false} DecimalIsOf(n: nat)
    ensures IsDecimalOf(Decimal(n), n) && (n > 0 ==> Decimal(n)[0] != '0')
  {
    ParseOfDecimal(n);
    if n >= 10 {
      DecimalIsOf(n / 10);
    }
  }

  predicate IsWholeOf(s: string, n: int) {
    if n < 0 then s != "" && s[0] == '-' && IsDecimalOf(s[1..], -n) else IsDecimalOf(s, n)
  }

  lemma WholeIsOf(n: int)
    ensures IsWholeOf(Whole(n), n)
  {
    DecimalIsOf(if n < 0 then -n else n);
    assert n < 0 ==> Whole(n)[1..] == Decimal(-n);
  }

  predicate IsStepText(step: Step, s: string) {
    match step
    case Key(key) => IsSnakeOf(s, key)
    case Index(i) => IsDecimalOf(s, i)
  }

  /** Whether n is the name of the variable at a place: what it begins with, then an underscore and a text for
      each step. */
  ghost predicate NamesPlace(lead: string, path: Path, n: string)
    decreases |path|
  {
    if path == [] then n == lead
    else exists s :: IsStepText(path[0], s) && NamesPlace(lead + "_" + s, path[1..], n)
  }

  // Places

  /** Whether the variables of a value are of what is inside it. */
  predicate Opens(v: Value) {
    v.Obj? || (v.Arr? && (v.items == [] || v.items[0].Obj?))
  }

  /** Whether encoding v comes to w by some steps. */
  predicate Reaches(v: Value, path: Path, w: Value)
    decreases |path|
  {
    if path == [] then w == v
    else Opens(v) && HasStep(v, path[0]) && Reaches(Into(v, path[0]), path[1..], w)
  }

  /** Every value but an object has a variable of its own. */
  predicate HoldsVariable(v: Value, path: Path, w: Value) {
    Reaches(v, path, w) && !w.Obj?
  }

  /** The keys on the way to a place, with dots between. */
  function Dotted(before: string, path: Path): string
    decreases |path|
  {
    if path == [] then before
    else if path[0].Index? then Dotted(before, path[1..])
    else Dotted(if before == "" then path[0].key else before + "." + path[0].key, path[1..])
  }

  predicate IsSecretAt(dotted: string) {
    dotted == "credential.key" || dotted == "r2.token"
  }

  /** The variable of a value at a place: the length of a list of objects, a list of strings joined, a whole number's
      decimal, or the value. Only the last is ever secret. */
  predicate IsVariableOf(x: Variable, w: Value, dotted: string) {
    match w
    case Num(n) => x.value.Str? && IsWholeOf(x.value.s, n.Floor) && !x.secret
    case Arr(items) =>
      && !x.secret
      && if Opens(w) then x.value.Str? && IsDecimalOf(x.value.s, |items|) else x.value == Listed(items)
    case _ => x.value == w && (x.secret <==> IsSecretAt(dotted))
  }

  ghost predicate IsAt(lead: string, before: string, v: Value, path: Path, x: Variable) {
    exists w :: HoldsVariable(v, path, w) && NamesPlace(lead, path, x.name) && IsVariableOf(x, w, Dotted(before, path))
  }

  /** Variables that are those of the places of a value that hold one, one for each. */
  ghost predicate AreOfPlaces(lead: string, before: string, v: Value, paths: seq<Path>, vars: seq<Variable>) {
    && |paths| == |vars|
    && (forall i | 0 <= i < |vars| :: IsAt(lead, before, v, paths[i], vars[i]))
    && (forall i, j | 0 <= i < j < |paths| :: paths[i] != paths[j])
    && forall path, w | HoldsVariable(v, path, w) :: path in paths
  }

  /** The places that hold a variable, in the order they are met. */
  ghost function PlacesOf(v: Value): seq<Path>
    decreases v, 1
  {
    match v
    case Obj(m) => InMembers(v, SortedNames(m.Keys))
    case Arr(items) => [[]] + if Opens(v) then InItems(items, 0) else []
    case _ => [[]]
  }

  function Under(step: Step, paths: seq<Path>): (r: seq<Path>)
    ensures |r| == |paths| && forall i | 0 <= i < |r| :: r[i] == [step] + paths[i]
  {
    seq(|paths|, i requires 0 <= i < |paths| => [step] + paths[i])
  }

  ghost function InMembers(v: Value, keys: seq<string>): seq<Path>
    requires v.Obj? && forall k | k in keys :: k in v.members
    decreases v, 0, |keys|
  {
    if keys == [] then [] else Under(Key(keys[0]), PlacesOf(v.members[keys[0]])) + InMembers(v, keys[1..])
  }

  ghost function InItems(items: seq<Value>, i: nat): seq<Path>
    decreases items, 0
  {
    if items == [] then [] else Under(Index(i), PlacesOf(items[0])) + InItems(items[1..], i + 1)
  }

  // A value's variables

  lemma StepIsAt(lead: string, text: string, before: string, v: Value, step: Step, path: Path, x: Variable)
    requires Opens(v) && HasStep(v, step) && IsStepText(step, text)
    requires IsAt(lead + "_" + text, Dotted(before, [step]), Into(v, step), path, x)
    ensures IsAt(lead, before, v, [step] + path, x)
  {
    hide IsStepText, IsVariableOf, Opens, HasStep;
    var w :| HoldsVariable(Into(v, step), path, w) && NamesPlace(lead + "_" + text, path, x.name)
      && IsVariableOf(x, w, Dotted(Dotted(before, [step]), path));
    var all := [step] + path;
    assert all[0] == step && all[1..] == path;
    assert NamesPlace(lead, all, x.name);
    assert Dotted(before, all) == Dotted(Dotted(before, [step]), path);
    assert HoldsVariable(v, all, w);
  }

  /** Whether some variables are those of the places that begin with a step among some. */
  ghost predicate AreUnder(lead: string, before: string, v: Value, steps: set<Step>, paths: seq<Path>,
      vars: seq<Variable>) {
    && |paths| == |vars|
    && (forall i | 0 <= i < |vars| ::
          paths[i] != [] && paths[i][0] in steps && IsAt(lead, before, v, paths[i], vars[i]))
    && (forall i, j | 0 <= i < j < |paths| :: paths[i] != paths[j])
    && forall path, w | HoldsVariable(v, path, w) && path != [] && path[0] in steps :: path in paths
  }

  /** The places that begin with one step more. */
  lemma OneMoreStep(lead: string, text: string, before: string, v: Value, step: Step, inner: seq<Path>,
      vars: seq<Variable>, steps: set<Step>, paths: seq<Path>, more: seq<Variable>)
    requires Opens(v) && HasStep(v, step) && IsStepText(step, text) && step !in steps
    requires AreOfPlaces(lead + "_" + text, Dotted(before, [step]), Into(v, step), inner, vars)
    requires AreUnder(lead, before, v, steps, paths, more)
    ensures AreUnder(lead, before, v, {step} + steps, Under(step, inner) + paths, vars + more)
  {
    hide IsAt, IsStepText, Opens, HasStep, Dotted;
    var first := Under(step, inner);
    var all, xs := first + paths, vars + more;
    forall i | 0 <= i < |xs|
      ensures all[i] != [] && all[i][0] in {step} + steps && IsAt(lead, before, v, all[i], xs[i])
    {
      if i < |vars| {
        StepIsAt(lead, text, before, v, step, inner[i], xs[i]);
      }
    }
    forall i, j | 0 <= i < j < |all| ensures all[i] != all[j] {
      if j < |first| {
        assert all[i][1..] == inner[i] && all[j][1..] == inner[j];
      } else {
        assert all[j][0] in steps;
      }
    }
    forall path, w | HoldsVariable(v, path, w) && path != [] && path[0] in {step} + steps ensures path in all {
      if path[0] == step {
        assert HoldsVariable(Into(v, step), path[1..], w);
        var i :| 0 <= i < |inner| && inner[i] == path[1..];
        assert path == [step] + path[1..] == all[i];
      }
    }
  }

  function KeysOf(keys: seq<string>): set<Step> {
    set k | k in keys :: Key(k)
  }

  lemma {:induction false} WalkIsOfPlaces(name: string, path: string, v: Value)
    ensures Walk(name, path, v).Vars? ==> AreOfPlaces(name, path, v, PlacesOf(v), Walk(name, path, v).vars)
    decreases v, 1
  {
    hide AreOfPlaces, AreUnder, Listed, IsListed, Segment, Decimal, Whole;
    if Walk(name, path, v).Vars? {
      match v
      case Obj(m) =>
        var keys := SortedNames(m.Keys);
        NamesAreDistinct(keys);
        MembersAreOfPlaces(name, path, v, keys);
        ObjectIsOfPlaces(name, path, v, keys, PlacesOf(v), Walk(name, path, v).vars);
      case Arr(items) =>
        if IsListOfObjects(items) {
          ItemsAreOfPlaces(name, path, v, 0);
          ListIsOfPlaces(name, path, v, InItems(items, 0), WalkItems(name, path, items, 0).vars);
        } else {
          LeafIsOfPlaces(name, path, v);
          assert PlacesOf(v) == [[]];
        }
      case _ => LeafIsOfPlaces(name, path, v);
    }
  }

  lemma NamesAreDistinct(names: seq<string>)
    requires Sorted(names)
    ensures forall i, j | 0 <= i < j < |names| :: names[i] != names[j]
  {
    forall i, j | 0 <= i < j < |names| ensures names[i] != names[j] {
      LessIsTotal(names[i], names[j]);
    }
  }

  lemma {:induction false} MembersAreOfPlaces(name: string, path: string, v: Value, keys: seq<string>)
    requires v.Obj? && forall k | k in keys :: k in v.members
    requires forall i, j | 0 <= i < j < |keys| :: keys[i] != keys[j]
    requires WalkMembers(name, path, v, keys).Vars?
    ensures AreUnder(name, path, v, KeysOf(keys), InMembers(v, keys), WalkMembers(name, path, v, keys).vars)
    decreases v, 0, |keys|
  {
    hide AreOfPlaces, IsAt, Walk, PlacesOf, Segment, IsSnakeOf;
    if keys != [] {
      var k, rest := keys[0], keys[1..];
      WalkIsOfPlaces(Member(name, k), Inner(path, k), v.members[k]);
      MembersAreOfPlaces(name, path, v, rest);
      SegmentIsSnake(k);
      assert Key(k) !in KeysOf(rest);
      assert KeysOf(keys) == {Key(k)} + KeysOf(rest);
      OneMoreStep(name, Segment(k), path, v, Key(k), PlacesOf(v.members[k]),
                  Walk(Member(name, k), Inner(path, k), v.members[k]).vars,
                  KeysOf(rest), InMembers(v, rest), WalkMembers(name, path, v, rest).vars);
    }
  }

  function IndicesFrom(i: nat, n: nat): set<Step> {
    set j: nat | i <= j < n :: Index(j)
  }

  lemma {:induction false} ItemsAreOfPlaces(name: string, path: string, v: Value, i: nat)
    requires v.Arr? && Opens(v) && i <= |v.items| && WalkItems(name, path, v.items[i..], i).Vars?
    ensures AreUnder(name, path, v, IndicesFrom(i, |v.items|), InItems(v.items[i..], i),
                     WalkItems(name, path, v.items[i..], i).vars)
    decreases v, 0, |v.items| - i
  {
    hide AreOfPlaces, IsAt, Walk, PlacesOf, Decimal, IsDecimalOf;
    var items := v.items[i..];
    if items != [] {
      assert items[1..] == v.items[i + 1..] && items[0] == v.items[i];
      WalkIsOfPlaces(Element(name, i), path, v.items[i]);
      ItemsAreOfPlaces(name, path, v, i + 1);
      DecimalIsOf(i);
      assert IndicesFrom(i, |v.items|) == {Index(i)} + IndicesFrom(i + 1, |v.items|);
      OneMoreStep(name, Decimal(i), path, v, Index(i), PlacesOf(v.items[i]),
                  Walk(Element(name, i), path, v.items[i]).vars,
                  IndicesFrom(i + 1, |v.items|), InItems(items[1..], i + 1),
                  WalkItems(name, path, items[1..], i + 1).vars);
    }
  }

  lemma ObjectIsOfPlaces(name: string, path: string, v: Value, keys: seq<string>, paths: seq<Path>,
      vars: seq<Variable>)
    requires v.Obj? && (forall k :: k in keys <==> k in v.members) && AreUnder(name, path, v, KeysOf(keys), paths, vars)
    ensures AreOfPlaces(name, path, v, paths, vars)
  {
    hide IsAt;
  }

  lemma ListIsOfPlaces(name: string, path: string, v: Value, paths: seq<Path>, vars: seq<Variable>)
    requires v.Arr? && Opens(v) && AreUnder(name, path, v, IndicesFrom(0, |v.items|), paths, vars)
    ensures AreOfPlaces(name, path, v, [[]] + paths, [Variable(name, Str(Decimal(|v.items|)), false)] + vars)
  {
    hide IsDecimalOf, Decimal;
    var x := Variable(name, Str(Decimal(|v.items|)), false);
    DecimalIsOf(|v.items|);
    assert HoldsVariable(v, [], v);
    assert IsAt(name, path, v, [], x);
    hide IsAt;
  }

  lemma LeafIsOfPlaces(name: string, path: string, v: Value)
    requires !Opens(v) && Walk(name, path, v).Vars?
    ensures AreOfPlaces(name, path, v, [[]], Walk(name, path, v).vars)
  {
    hide IsDecimalOf, Decimal, Listed, IsListed, IsWholeOf, Whole;
    if v.Num? {
      WholeIsOf(v.n.Floor);
    }
    assert HoldsVariable(v, [], v);
    assert IsAt(name, path, v, [], Walk(name, path, v).vars[0]);
  }

  // Which values have variables

  predicate IsItem(v: Value) {
    v.Output? || v.Parameter? || v.Concat? || (v.Str? && ',' !in v.s)
  }

  /** What can be encoded where it stands: an object with members, a list of objects or of strings without commas, a
      whole number that a double holds exactly, a string or a reference. */
  predicate IsEncodable(v: Value) {
    match v
    case Obj(m) => m != map[]
    case Arr(items) => forall i | 0 <= i < |items| :: if Opens(v) then items[i].Obj? else IsItem(items[i])
    case Num(n) => n == n.Floor as real && -9_007_199_254_740_992.0 <= n <= 9_007_199_254_740_992.0
    case Null => false
    case Bool(_) => false
    case _ => true
  }

  ghost predicate AllEncodable(v: Value) {
    forall path, w | Reaches(v, path, w) :: IsEncodable(w)
  }

  lemma StepEncodable(v: Value, step: Step)
    requires Opens(v) && HasStep(v, step) && AllEncodable(v)
    ensures AllEncodable(Into(v, step))
  {
    hide IsEncodable, Opens, HasStep;
    forall path, w | Reaches(Into(v, step), path, w) ensures IsEncodable(w) {
      var all := [step] + path;
      assert all[0] == step && all[1..] == path;
      assert Reaches(v, all, w);
    }
  }

  lemma StepsEncodable(v: Value)
    requires IsEncodable(v)
    requires Opens(v) ==> forall step | HasStep(v, step) :: AllEncodable(Into(v, step))
    ensures AllEncodable(v)
  {
    hide IsEncodable, Opens, HasStep;
    forall path, w | Reaches(v, path, w) ensures IsEncodable(w) {
      if path != [] {
        assert Reaches(Into(v, path[0]), path[1..], w);
      }
    }
  }

  /** A value has variables exactly when all that encoding it comes to can be encoded. */
  lemma {:induction false} EncodesExactly(name: string, path: string, v: Value)
    ensures Walk(name, path, v).Vars? <==> AllEncodable(v)
    decreases v, 1
  {
    hide AllEncodable, Segment, Decimal, Whole, Listed;
    assert AllEncodable(v) ==> IsEncodable(v) by { hide IsEncodable; ItselfEncodable(v); }
    match v
    case Obj(m) =>
      var keys := SortedNames(m.Keys);
      MembersEncode(name, path, v, keys);
      ObjectEncodes(v, keys);
    case Arr(items) =>
      if IsListOfObjects(items) {
        assert items[0..] == items;
        ItemsEncode(name, path, v, 0);
        ListEncodes(v);
      } else {
        LeafEncodes(v);
      }
    case _ => LeafEncodes(v);
  }

  lemma ItselfEncodable(v: Value)
    ensures AllEncodable(v) ==> IsEncodable(v)
  {
    assert Reaches(v, [], v);
  }

  lemma LeafEncodes(v: Value)
    requires !Opens(v)
    ensures IsEncodable(v) ==> AllEncodable(v)
  {
    hide AllEncodable, IsEncodable;
    if IsEncodable(v) { StepsEncodable(v); }
  }

  lemma ObjectEncodes(v: Value, keys: seq<string>)
    requires v.Obj? && forall k :: k in keys <==> k in v.members
    ensures AllEncodable(v) <==> v.members != map[] && forall k | k in keys :: AllEncodable(v.members[k])
  {
    hide AllEncodable;
    ItselfEncodable(v);
    if AllEncodable(v) {
      forall k | k in keys { StepEncodable(v, Key(k)); }
    }
    if v.members != map[] && forall k | k in keys :: AllEncodable(v.members[k]) {
      StepsEncodable(v);
    }
  }

  lemma ListEncodes(v: Value)
    requires v.Arr? && Opens(v)
    ensures AllEncodable(v) <==>
      forall i | 0 <= i < |v.items| :: v.items[i].Obj? && AllEncodable(v.items[i])
  {
    hide AllEncodable;
    ItselfEncodable(v);
    if AllEncodable(v) {
      forall i | 0 <= i < |v.items| ensures v.items[i].Obj? && AllEncodable(v.items[i]) {
        StepEncodable(v, Index(i));
      }
    }
    if forall i | 0 <= i < |v.items| :: v.items[i].Obj? && AllEncodable(v.items[i]) {
      StepsEncodable(v);
    }
  }

  lemma {:induction false} MembersEncode(name: string, path: string, v: Value, keys: seq<string>)
    requires v.Obj? && forall k | k in keys :: k in v.members
    ensures WalkMembers(name, path, v, keys).Vars? <==> forall k | k in keys :: AllEncodable(v.members[k])
    decreases v, 0, |keys|
  {
    hide AllEncodable, Walk;
    if keys != [] {
      EncodesExactly(Member(name, keys[0]), Inner(path, keys[0]), v.members[keys[0]]);
      MembersEncode(name, path, v, keys[1..]);
      assert forall k :: k in keys <==> k == keys[0] || k in keys[1..];
    }
  }

  lemma {:induction false} ItemsEncode(name: string, path: string, v: Value, i: nat)
    requires v.Arr? && i <= |v.items|
    ensures WalkItems(name, path, v.items[i..], i).Vars? <==>
      forall j | i <= j < |v.items| :: v.items[j].Obj? && AllEncodable(v.items[j])
    decreases v, 0, |v.items| - i
  {
    hide AllEncodable, Walk;
    if i < |v.items| {
      assert v.items[i..][0] == v.items[i] && v.items[i..][1..] == v.items[i + 1..];
      EncodesExactly(Element(name, i), path, v.items[i]);
      ItemsEncode(name, path, v, i + 1);
    }
  }

  // Derived fields

  /** The variables of a derived field are one for each place of its value that holds one: its own. There are none
      exactly when something in it cannot be encoded. */
  lemma DerivedVariablesAreOfPlaces(field: string, value: Value, r: Encoded)
    requires JsonForm(value).Ok? && IsDerivation(field, value, r)
    ensures var v := JsonForm(value).value;
      && (r.Vars? <==> AllEncodable(v))
      && (r.Vars? ==>
            && (forall x | x in r.vars :: exists path :: IsAt(field, "", v, path, x))
            && (forall path, w | HoldsVariable(v, path, w) :: exists x :: x in r.vars && IsAt(field, "", v, path, x))
            && |r.vars| == |PlacesOf(v)|)
  {
    hide AllEncodable, Walk, IsAt, HoldsVariable, PlacesOf, JsonForm;
    var v := JsonForm(value).value;
    EncodesExactly(field, "", v);
    WalkIsOfPlaces(field, "", v);
    if r.Vars? {
      var vars, paths := Walk(field, "", v).vars, PlacesOf(v);
      SameVariables(vars, r.vars);
      forall x | x in r.vars ensures exists path :: IsAt(field, "", v, path, x) {
        var i :| 0 <= i < |vars| && vars[i] == x;
        assert IsAt(field, "", v, paths[i], x);
      }
      forall path, w | HoldsVariable(v, path, w) ensures exists x :: x in r.vars && IsAt(field, "", v, path, x) {
        var i :| 0 <= i < |paths| && paths[i] == path;
        assert vars[i] in r.vars;
      }
    }
  }

  lemma SameVariables(a: seq<Variable>, b: seq<Variable>)
    requires multiset(a) == multiset(b)
    ensures |a| == |b| && forall x :: x in a <==> x in b
  {
    assert |multiset(a)| == |multiset(b)|;
    assert forall x :: x in a <==> x in multiset(a);
    assert forall x :: x in b <==> x in multiset(b);
  }
}
