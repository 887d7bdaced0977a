/** The index of a schema's scalars by their canonical names and short aliases, and resolving a token with it. */
module ScalarAliases {
  import opened Basics
  import opened Order
  import opened Text

  /** A schema's scalars by key, each with the name its definition gives it, when it has a definition. */
  type Scalars = map<string, Option<string>>

  datatype Index = Index(canonicalNames: set<string>, aliases: map<string, seq<string>>)

  datatype Resolution = Resolved(name: string) | Ambiguous(candidates: seq<string>) | NotFound

  // Names

  /** A segment of a canonical name: a capital, then letters and digits. */
  predicate IsSegment(s: string) {
    s != "" && IsUpper(s[0]) && forall i | 0 <= i < |s| :: IsUpper(s[i]) || IsLower(s[i]) || IsDigit(s[i])
  }

  predicate IsCanonical(name: string) {
    name != "" && forall p | p in Split(name, '.') :: IsSegment(p)
  }

  predicate IsNameChar(c: char) {
    'A' <= c <= 'Z' || 'a' <= c <= 'z' || '0' <= c <= '9'
  }

  predicate AreNameChars(s: string) {
    forall i | 0 <= i < |s| :: IsNameChar(s[i])
  }

  lemma NameCharsOneMore(c: char, s: string)
    ensures AreNameChars([c] + s) <==> IsNameChar(c) && AreNameChars(s)
  {
    var more := [c] + s;
    assert more[0] == c && forall i | 0 <= i < |s| :: more[i + 1] == s[i];
  }

  /** Letters and digits between dots, and a capital after each dot. */
  predicate IsDotted(s: string) {
    && (s != "" ==> s[|s| - 1] != '.')
    && (forall i | 0 <= i < |s| :: s[i] == '.' || IsNameChar(s[i]))
    && forall i | 0 < i < |s| && s[i - 1] == '.' :: 'A' <= s[i] <= 'Z'
  }

  lemma {:induction false} PiecesAreDotted(s: string)
    ensures var pieces := Split(s, '.');
      AreNameChars(pieces[0]) && (forall p | p in pieces[1..] :: IsSegment(p)) <==> IsDotted(s)
    ensures Split(s, '.')[0] == "" <==> s == "" || s[0] == '.'
    ensures s != "" && s[0] != '.' ==> Split(s, '.')[0][0] == s[0]
  {
    if s != "" {
      var rest := Split(s[1..], '.');
      PiecesAreDotted(s[1..]);
      DottedAfter(s);
      if s[0] == '.' {
        assert forall p :: p in rest <==> p == rest[0] || p in rest[1..];
        assert IsSegment(rest[0]) <==> rest[0] != "" && IsUpper(rest[0][0]) && AreNameChars(rest[0]);
      } else {
        var first := [s[0]] + rest[0];
        NameCharsOneMore(s[0], rest[0]);
        assert Split(s, '.') == [first] + rest[1..];
      }
    }
  }

  lemma DottedAfter(s: string)
    requires s != ""
    ensures IsDotted(s) <==>
      && IsDotted(s[1..]) && (s[0] == '.' || IsNameChar(s[0]))
      && (s[0] == '.' ==> |s| > 1 && 'A' <= s[1] <= 'Z')
  {
    var rest := s[1..];
    assert forall i | 0 < i < |s| :: s[i] == rest[i - 1];
    if IsDotted(s) {
      assert forall i | 0 < i < |rest| :: rest[i - 1] == s[i] && rest[i] == s[i + 1];
    }
  }

  /** A canonical name is letters and digits, with a capital first and after each dot, and no dot last. */
  lemma CanonicalIsDotted(name: string)
    ensures IsCanonical(name) <==> name != "" && 'A' <= name[0] <= 'Z' && IsDotted(name)
  {
    PiecesAreDotted(name);
    var pieces := Split(name, '.');
    assert forall p :: p in pieces <==> p == pieces[0] || p in pieces[1..];
    assert IsSegment(pieces[0]) <==> pieces[0] != "" && IsUpper(pieces[0][0]) && AreNameChars(pieces[0]);
  }

  function ShortAlias(name: string): Option<string> {
    var trimmed := Trim(name);
    if IsCanonical(trimmed) then Some(AfterLast(trimmed, '.')) else None
  }

  /** The name of a scalar: its definition's, or its key. */
  function NameOf(key: string, definition: Option<string>): string {
    if definition.Some? && Trim(definition.value) != "" then Trim(definition.value) else Trim(key)
  }

  lemma CanonicalAlias(name: string)
    requires IsCanonical(name) && Trim(name) == name
    ensures ShortAlias(name) == Some(AfterLast(name, '.')) && AfterLast(name, '.') != ""
  {
    LastPiece(name, '.');
    assert IsSegment(AfterLast(name, '.'));
  }

  /** What follows the last separator is the last piece. */
  lemma {:induction false} LastPiece(s: string, sep: char)
    ensures sep !in AfterLast(s, sep)
    ensures var pieces := Split(s, sep); pieces[|pieces| - 1] == AfterLast(s, sep)
  {
    if sep in s {
      var rest := Split(s[1..], sep);
      LastPiece(s[1..], sep);
      if s[0] != sep {
        assert sep in s[1..];
        SplitsInTwo(s[1..], sep);
        assert Split(s, sep) == [[s[0]] + rest[0]] + rest[1..];
      }
    } else {
      SplitOfWhole(s, sep);
    }
  }

  // The index

  /** The canonical names of the scalars of some keys. */
  ghost function NamesOfKeys(scalars: Scalars, keys: set<string>): set<string>
    requires keys <= scalars.Keys
  {
    set key | key in keys && IsCanonical(NameOf(key, scalars[key])) :: NameOf(key, scalars[key])
  }

  ghost function CanonicalNames(scalars: Scalars): set<string> {
    NamesOfKeys(scalars, scalars.Keys)
  }

  /** Whether r is the name of a scalar: its definition's, trimmed, or its key's when that says nothing. */
  ghost predicate IsNameOf(r: string, key: string, definition: Option<string>) {
    if definition.Some? && !AllSpaces(definition.value) then IsTrimOf(r, definition.value) else IsTrimOf(r, key)
  }

  lemma NameIsOf(key: string, definition: Option<string>)
    ensures IsNameOf(NameOf(key, definition), key, definition)
  {
    TrimIsTrimOf(key);
    if definition.Some? {
      TrimIsTrimOf(definition.value);
      BlankIsTrimmed(definition.value);
    }
  }

  /** The canonical names are those of the scalars whose name is canonical. */
  lemma CanonicalNamesAreOf(scalars: Scalars, name: string)
    ensures name in CanonicalNames(scalars) ==>
      IsCanonical(name) && exists key :: key in scalars && IsNameOf(name, key, scalars[key])
    ensures forall key | key in scalars && IsCanonical(NameOf(key, scalars[key])) ::
      NameOf(key, scalars[key]) in CanonicalNames(scalars) && IsNameOf(NameOf(key, scalars[key]), key, scalars[key])
  {
    hide NameOf, IsNameOf, IsCanonical;
    forall key | key in scalars ensures IsNameOf(NameOf(key, scalars[key]), key, scalars[key]) {
      NameIsOf(key, scalars[key]);
    }
  }

  ghost function WithAlias(names: set<string>, alias: string): set<string> {
    set n | n in names && AfterLast(n, '.') == alias
  }

  /** Names by the alias each has. */
  ghost predicate Groups(byAlias: map<string, set<string>>, names: set<string>) {
    && (forall alias :: alias in byAlias <==> WithAlias(names, alias) != {})
    && forall alias | alias in byAlias :: byAlias[alias] == WithAlias(names, alias)
  }

  /** The index of some canonical names: each alias with the names it may stand for, sorted. */
  ghost predicate Indexes(index: Index, names: set<string>) {
    && index.canonicalNames == names
    && (forall alias :: alias in index.aliases <==> WithAlias(names, alias) != {})
    && forall alias | alias in index.aliases :: index.aliases[alias] == SortedNames(WithAlias(names, alias))
  }

  lemma GroupsOneMore(byAlias: map<string, set<string>>, names: set<string>, name: string)
    requires Groups(byAlias, names)
    ensures var alias := AfterLast(name, '.');
      var candidates := if alias in byAlias then byAlias[alias] else {};
      Groups(byAlias[alias := candidates + {name}], names + {name})
  {
  }

  lemma NamesOneMore(scalars: Scalars, keys: set<string>, key: string)
    requires keys <= scalars.Keys && key in scalars
    ensures var name := NameOf(key, scalars[key]);
      NamesOfKeys(scalars, keys + {key}) == NamesOfKeys(scalars, keys) + if IsCanonical(name) then {name} else {}
  {
  }

  method GroupNames(scalars: Scalars) returns (names: set<string>, byAlias: map<string, set<string>>)
    ensures names == CanonicalNames(scalars) && Groups(byAlias, names)
  {
    hide IsCanonical, Groups, AfterLast;
    names, byAlias := {}, map[];
    GroupsOfNone();
    var left := scalars.Keys;
    while left != {}
      invariant left <= scalars.Keys
      invariant names == NamesOfKeys(scalars, scalars.Keys - left)
      invariant Groups(byAlias, names)
      decreases |left|
    {
      var key :| key in left;
      NamesOneMore(scalars, scalars.Keys - left, key);
      assert scalars.Keys - (left - {key}) == scalars.Keys - left + {key};
      left := left - {key};
      var name := NameOf(key, scalars[key]);
      if IsCanonical(name) {
        NameIsTrimmed(key, scalars[key]);
        CanonicalAlias(name);
        GroupsOneMore(byAlias, names, name);
        names := names + {name};
        var alias := ShortAlias(name);
        if alias.Some? && alias.value != "" {
          var candidates := if alias.value in byAlias then byAlias[alias.value] else {};
          byAlias := byAlias[alias.value := candidates + {name}];
        }
      }
    }
    assert scalars.Keys - left == scalars.Keys;
  }

  lemma GroupsOfNone()
    ensures Groups(map[], {})
  {
  }

  lemma NameIsTrimmed(key: string, definition: Option<string>)
    ensures Trim(NameOf(key, definition)) == NameOf(key, definition)
  {
  }

  /** Builds the index, taking the scalars in any order. */
  method BuildIndex(scalars: Scalars) returns (index: Index)
    ensures Indexes(index, CanonicalNames(scalars))
  {
    hide CanonicalNames, WithAlias, SortedNames, Sorted;
    var names, byAlias := GroupNames(scalars);
    var aliases: map<string, seq<string>> := map[];
    var left := byAlias.Keys;
    while left != {}
      invariant left <= byAlias.Keys && aliases.Keys == byAlias.Keys - left
      invariant forall alias | alias in aliases :: aliases[alias] == SortedNames(byAlias[alias])
      decreases |left|
    {
      var alias :| alias in left;
      left := left - {alias};
      var sorted := SortNames(byAlias[alias]);
      aliases := aliases[alias := sorted];
    }
    index := Index(names, aliases);
  }

  function Resolve(index: Index, token: string): Resolution {
    var trimmed := Trim(token);
    if trimmed == "" then NotFound
    else if '.' in trimmed then
      if trimmed in index.canonicalNames then Resolved(trimmed) else NotFound
    else if trimmed !in index.aliases || index.aliases[trimmed] == [] then NotFound
    else if |index.aliases[trimmed]| == 1 then Resolved(index.aliases[trimmed][0])
    else Ambiguous(index.aliases[trimmed])
  }

  // A search without an index

  /** A name that is a token, or ends in it after a dot. */
  predicate EndsIn(name: string, token: string) {
    name == token || (|name| > |token| && name[|name| - |token| - 1..] == "." + token)
  }

  lemma {:induction false} AliasIsEnding(name: string, token: string)
    requires '.' !in token
    ensures AfterLast(name, '.') == token <==> EndsIn(name, token)
  {
    if '.' in name {
      var rest := name[1..];
      AliasIsEnding(rest, token);
      if |rest| > |token| {
        assert rest[|rest| - |token| - 1..] == name[|name| - |token| - 1..];
      } else if |rest| == |token| {
        assert name[|name| - |token| - 1..] == name;
        assert name == [name[0]] + rest;
        if rest == token {
          assert name[0] == '.';
        }
      }
    } else if |name| > |token| {
      assert name[|name| - |token| - 1] != '.';
      assert (name[|name| - |token| - 1..])[0] == name[|name| - |token| - 1];
    }
  }

  ghost function Matching(names: set<string>, token: string): set<string> {
    set n | n in names && EndsIn(n, token)
  }

  /** Resolving a token with the index is searching the schema's canonical names: a dotted token is one of
      them, and another names the one that ends in it, or is ambiguous between those that do. */
  lemma {:induction false} ResolveIsSearch(scalars: Scalars, index: Index, token: string)
    requires Indexes(index, CanonicalNames(scalars))
    ensures var t, names, r := Trim(token), CanonicalNames(scalars), Resolve(index, token);
      match r
      case Resolved(name) => if '.' in t then t in names && name == t else Matching(names, t) == {name}
      case Ambiguous(candidates) =>
        '.' !in t && |Matching(names, t)| > 1 && candidates == SortedNames(Matching(names, t))
      case NotFound => if '.' in t then t !in names else Matching(names, t) == {}
  {
    hide CanonicalNames, EndsIn, AfterLast, Trim, SortedNames;
    var t, names := Trim(token), CanonicalNames(scalars);
    if '.' !in t {
      forall n ensures EndsIn(n, t) <==> AfterLast(n, '.') == t {
        AliasIsEnding(n, t);
      }
      assert Matching(names, t) == WithAlias(names, t);
      NoneEndsInNothing(scalars);
      if t in index.aliases {
        var sorted := index.aliases[t];
        assert |sorted| == |Matching(names, t)|;
        SingleOf(Matching(names, t), sorted);
      }
    }
  }

  lemma SingleOf(names: set<string>, sorted: seq<string>)
    requires |sorted| == |names| && forall n :: n in sorted <==> n in names
    ensures |sorted| == 1 ==> names == {sorted[0]}
    ensures sorted == [] ==> names == {}
  {
  }

  lemma NoneEndsInNothing(scalars: Scalars)
    ensures WithAlias(CanonicalNames(scalars), "") == {}
  {
    forall n | n in CanonicalNames(scalars) ensures AfterLast(n, '.') != "" {
      var key :| key in scalars && n == NameOf(key, scalars[key]) && IsCanonical(n);
      NameIsTrimmed(key, scalars[key]);
      CanonicalAlias(n);
    }
  }
}
