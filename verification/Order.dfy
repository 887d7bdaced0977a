/** Strings in order, as Go's sort.Strings puts them, and the names of a set as a sorted list. */
module Order {

  /** Whether a comes before b: a proper prefix, or smaller at the first character where they differ. */
  predicate Less(a: string, b: string) {
    if b == [] then false
    else if a == [] then true
    else if a[0] != b[0] then a[0] < b[0]
    else Less(a[1..], b[1..])
  }

  /** Whether two strings agree up to i, and one ends there or is smaller than the other. */
  predicate IsSmallerAt(a: string, b: string, i: nat) {
    i <= |a| && i < |b| && (forall j | 0 <= j < i :: a[j] == b[j]) && (i == |a| || a[i] < b[i])
  }

  lemma {:induction false} LessIsLexicographic(a: string, b: string)
    ensures Less(a, b) <==> exists i :: IsSmallerAt(a, b, i)
  {
    if a == [] || b == [] || a[0] != b[0] {
      assert Less(a, b) ==> IsSmallerAt(a, b, 0);
    } else {
      LessIsLexicographic(a[1..], b[1..]);
      if i: nat :| IsSmallerAt(a[1..], b[1..], i) {
        assert IsSmallerAt(a, b, i + 1);
      }
      if i: nat :| IsSmallerAt(a, b, i) {
        assert IsSmallerAt(a[1..], b[1..], i - 1);
      }
    }
  }

  lemma {:induction false} LessIsTotal(a: string, b: string)
    ensures a == b || Less(a, b) || Less(b, a)
    ensures !(Less(a, b) && Less(b, a)) && (a == b ==> !Less(a, b))
  {
    if a != [] && b != [] {
      LessIsTotal(a[1..], b[1..]);
      assert a == [a[0]] + a[1..] && b == [b[0]] + b[1..];
    }
  }

  lemma {:induction false} LessIsTransitive(a: string, b: string, c: string)
    requires Less(a, b) && Less(b, c)
    ensures Less(a, c)
  {
    if a != [] && a[0] == b[0] && b[0] == c[0] {
      LessIsTransitive(a[1..], b[1..], c[1..]);
    }
  }

  predicate Sorted(names: seq<string>) {
    forall i, j | 0 <= i < j < |names| :: Less(names[i], names[j])
  }

  /** Puts a name into a sorted list that lacks it. */
  function Insert(name: string, names: seq<string>): (r: seq<string>)
    requires Sorted(names) && name !in names
    ensures Sorted(r) && forall n :: n in r <==> n == name || n in names
    ensures |r| == |names| + 1
  {
    if names == [] then [name]
    else
      LessIsTotal(name, names[0]);
      if Less(name, names[0]) then
        assert forall n | n in names :: Less(name, n) by {
          forall i | 0 < i < |names| { LessIsTransitive(name, names[0], names[i]); }
        }
        [name] + names
      else
        var rest := Insert(name, names[1..]);
        assert forall n | n in rest :: Less(names[0], n);
        assert names == [names[0]] + names[1..];
        [names[0]] + rest
  }

  lemma NonEmptyHolds(names: seq<string>)
    ensures names == [] || exists n :: n in names
  {
    if names != [] {
      assert names[0] in names;
    }
  }

  /** A sorted list is determined by its names. */
  lemma {:induction false} SortedIsUnique(a: seq<string>, b: seq<string>)
    requires Sorted(a) && Sorted(b) && forall n :: n in a <==> n in b
    ensures a == b
  {
    if a == [] {
      NonEmptyHolds(b);
    } else {
      assert a[0] in a && b != [];
      assert b[0] in b;
      LessIsTotal(a[0], b[0]);
      assert a[0] == b[0];
      forall n ensures n in a[1..] <==> n in b[1..] {
        LessIsTotal(a[0], a[0]);
        assert n in a[1..] <==> n in a && n != a[0];
        assert n in b[1..] <==> n in b && n != b[0];
      }
      SortedIsUnique(a[1..], b[1..]);
    }
  }

  /** A list of the names of a set, each once, in order. */
  ghost predicate Lists(r: seq<string>, names: set<string>) {
    Sorted(r) && |r| == |names| && forall n :: n in r <==> n in names
  }

  lemma {:induction false} CanBeListed(names: set<string>)
    ensures exists r :: Lists(r, names)
    decreases |names|
  {
    if names == {} {
      assert Lists([], names);
    } else {
      var name :| name in names;
      CanBeListed(names - {name});
      var rest :| Lists(rest, names - {name});
      assert Lists(Insert(name, rest), names);
    }
  }

  /** The names of a set, sorted. */
  ghost function SortedNames(names: set<string>): (r: seq<string>)
    ensures Sorted(r) && forall n :: n in r <==> n in names
    ensures |r| == |names|
  {
    CanBeListed(names);
    var r :| Lists(r, names);
    r
  }

  /** A list without some names. */
  function Dropping(names: seq<string>, dropped: set<string>): seq<string> {
    if names == [] then []
    else
      var last := names[|names| - 1];
      Dropping(names[..|names| - 1], dropped) + if last in dropped then [] else [last]
  }

  lemma {:induction false} DroppingKeepsOrder(names: seq<string>, dropped: set<string>)
    requires Sorted(names)
    ensures Sorted(Dropping(names, dropped))
    ensures forall n :: n in Dropping(names, dropped) <==> n in names && n !in dropped
  {
    hide Less;
    if names != [] {
      var rest := names[..|names| - 1];
      assert names == rest + [names[|names| - 1]];
      DroppingKeepsOrder(rest, dropped);
      var kept := Dropping(rest, dropped);
      forall i | 0 <= i < |kept| ensures Less(kept[i], names[|names| - 1]) {
        assert kept[i] in rest;
      }
    }
  }

  /** Collects the names of a set and sorts them. */
  method SortNames(names: set<string>) returns (r: seq<string>)
    ensures r == SortedNames(names)
  {
    r := [];
    var left := names;
    while left != {}
      invariant left <= names && Sorted(r)
      invariant forall n :: n in r <==> n in names && n !in left
      decreases |left|
    {
      var name :| name in left;
      left := left - {name};
      r := Insert(name, r);
    }
    SortedIsUnique(r, SortedNames(names));
  }
}
