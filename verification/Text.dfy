/** Text as the repository's encodings use it: splitting and joining at a separator, and decimals. */
module Text {

  /** The pieces of s between separators, as strings.Split gives them: one more than the separators. */
  function Split<T(==)>(s: seq<T>, sep: T): (r: seq<seq<T>>)
    ensures r != [] && forall p | p in r :: sep !in p
  {
    if s == [] then [[]]
    else
      var rest := Split(s[1..], sep);
      if s[0] == sep then [[]] + rest else [[s[0]] + rest[0]] + rest[1..]
  }

  function Join<T>(parts: seq<seq<T>>, sep: T): seq<T> {
    if parts == [] then []
    else if |parts| == 1 then parts[0]
    else parts[0] + [sep] + Join(parts[1..], sep)
  }

  lemma {:induction false} SplitOfWhole<T>(s: seq<T>, sep: T)
    requires sep !in s
    ensures Split(s, sep) == [s]
  {
    if s != [] {
      assert sep !in s[1..];
      SplitOfWhole(s[1..], sep);
      assert s == [s[0]] + s[1..];
    }
  }

  /** A separator splits what is before it from what is after. */
  lemma {:induction false} SplitAtSeparator<T>(a: seq<T>, b: seq<T>, sep: T)
    ensures Split(a + [sep] + b, sep) == Split(a, sep) + Split(b, sep)
  {
    var s := a + [sep] + b;
    if a == [] {
      assert s[1..] == b;
    } else {
      assert s[0] == a[0] && s[1..] == a[1..] + [sep] + b;
      SplitAtSeparator(a[1..], b, sep);
      Prepend(a[0], Split(a[1..], sep), Split(b, sep), sep);
    }
  }

  /** Putting a character before a list of pieces, as Split does, leaves what follows the list alone. */
  lemma Prepend<T>(c: T, l: seq<seq<T>>, r: seq<seq<T>>, sep: T)
    requires l != []
    ensures var all := l + r;
      (if c == sep then [[]] + all else [[c] + all[0]] + all[1..])
        == (if c == sep then [[]] + l else [[c] + l[0]] + l[1..]) + r
  {
  }

  /** The pieces of a joined list are the pieces of its parts. */
  function SplitEach<T(==)>(parts: seq<seq<T>>, sep: T): seq<seq<T>> {
    if parts == [] then [] else Split(parts[0], sep) + SplitEach(parts[1..], sep)
  }

  lemma {:induction false} SplitOfJoin<T>(parts: seq<seq<T>>, sep: T)
    requires parts != []
    ensures Split(Join(parts, sep), sep) == SplitEach(parts, sep)
  {
    if |parts| > 1 {
      SplitAtSeparator(parts[0], Join(parts[1..], sep), sep);
      SplitOfJoin(parts[1..], sep);
    } else {
      assert SplitEach(parts[1..], sep) == [];
    }
  }

  lemma {:induction false} SplitEachSize<T>(parts: seq<seq<T>>, sep: T)
    ensures |SplitEach(parts, sep)| >= |parts|
    ensures (forall p | p in parts :: sep !in p) ==> SplitEach(parts, sep) == parts
    ensures (exists p | p in parts :: sep in p) ==> |SplitEach(parts, sep)| > |parts|
  {
    if parts != [] {
      var head, rest := parts[0], parts[1..];
      assert forall p :: p in parts <==> p == head || p in rest;
      SplitEachSize(rest, sep);
      if sep in head {
        SplitsInTwo(head, sep);
      } else {
        SplitOfWhole(head, sep);
      }
    }
  }

  lemma {:induction false} SplitsInTwo<T>(s: seq<T>, sep: T)
    requires sep in s
    ensures |Split(s, sep)| > 1
  {
    if s[0] != sep {
      SplitsInTwo(s[1..], sep);
    }
  }

  /** Splitting a joined list gives the list back exactly when no part holds the separator. */
  lemma SplitUndoesJoin<T>(parts: seq<seq<T>>, sep: T)
    requires parts != []
    ensures Split(Join(parts, sep), sep) == parts <==> forall p | p in parts :: sep !in p
  {
    SplitOfJoin(parts, sep);
    SplitEachSize(parts, sep);
  }

  /** What follows the last separator. */
  function AfterLast(s: string, sep: char): string {
    if sep in s then AfterLast(s[1..], sep) else s
  }

  /** Whether part is what follows the last separator of a text, or all of it when it has none. */
  predicate IsLastPart(part: string, text: string, sep: char) {
    && |part| <= |text| && text[|text| - |part|..] == part && sep !in part
    && (|part| < |text| ==> text[|text| - |part| - 1] == sep)
  }

  lemma {:induction false} AfterLastIsLastPart(text: string, sep: char)
    ensures forall part :: IsLastPart(part, text, sep) <==> part == AfterLast(text, sep)
  {
    if sep in text {
      AfterLastIsLastPart(text[1..], sep);
      forall part ensures IsLastPart(part, text, sep) <==> IsLastPart(part, text[1..], sep) {
        if |part| < |text| {
          assert text[|text| - |part|..] == text[1..][|text[1..]| - |part|..];
        }
        if |part| == |text| {
          assert text[0..] == text;
        }
      }
    } else {
      assert forall i | 0 <= i < |text| :: text[i] != sep;
      assert text[0..] == text;
    }
  }

  // Characters

  predicate IsUpper(c: char) {
    'A' <= c <= 'Z'
  }

  predicate IsLower(c: char) {
    'a' <= c <= 'z'
  }

  function LowerOf(c: char): char {
    if IsUpper(c) then 'a' + (c - 'A') else c
  }

  function ToLower(s: string): (r: string)
    ensures |r| == |s| && forall i | 0 <= i < |s| :: r[i] == LowerOf(s[i])
  {
    if s == "" then "" else [LowerOf(s[0])] + ToLower(s[1..])
  }

  // Trimming

  predicate IsSpace(c: char) {
    c == ' ' || '\t' <= c <= '\r'
  }

  function TrimLeft(s: string): (r: string)
    ensures r == "" || !IsSpace(r[0])
  {
    if s != "" && IsSpace(s[0]) then TrimLeft(s[1..]) else s
  }

  function TrimRight(s: string): (r: string)
    ensures r <= s && (r == "" || !IsSpace(r[|r| - 1]))
  {
    if s != "" && IsSpace(s[|s| - 1]) then TrimRight(s[..|s| - 1]) else s
  }

  function Trim(s: string): string {
    TrimRight(TrimLeft(s))
  }

  predicate AllSpaces(s: string) {
    forall i | 0 <= i < |s| :: IsSpace(s[i])
  }

  /** Whether r is s without the spaces before and after it. */
  ghost predicate IsTrimOf(r: string, s: string) {
    && (exists i :: 0 <= i <= |s| - |r| && s[i..i + |r|] == r && AllSpaces(s[..i]) && AllSpaces(s[i + |r|..]))
    && (r == "" || (!IsSpace(r[0]) && !IsSpace(r[|r| - 1])))
  }

  lemma {:induction false} TrimLeftSpaces(s: string)
    ensures var r := TrimLeft(s); |r| <= |s| && s[|s| - |r|..] == r && AllSpaces(s[..|s| - |r|])
  {
    if s != "" && IsSpace(s[0]) {
      TrimLeftSpaces(s[1..]);
      var r := TrimLeft(s);
      assert s[|s| - |r|..] == s[1..][|s[1..]| - |r|..];
      assert s[..|s| - |r|] == [s[0]] + s[1..][..|s[1..]| - |r|];
    } else {
      assert s[0..] == s;
    }
  }

  lemma {:induction false} TrimRightSpaces(s: string)
    ensures AllSpaces(s[|TrimRight(s)|..])
  {
    if s != "" && IsSpace(s[|s| - 1]) {
      TrimRightSpaces(s[..|s| - 1]);
      assert s[|TrimRight(s)|..] == s[..|s| - 1][|TrimRight(s)|..] + [s[|s| - 1]];
    }
  }

  lemma TrimIsTrimOf(s: string)
    ensures IsTrimOf(Trim(s), s)
  {
    var left, r := TrimLeft(s), Trim(s);
    TrimLeftSpaces(s);
    TrimRightSpaces(left);
    var i := |s| - |left|;
    assert s[i..][..|r|] == s[i..i + |r|] && s[i..][|r|..] == s[i + |r|..];
    assert r == left[..|r|];
    assert r != "" ==> r[0] == left[0];
  }

  lemma BlankIsTrimmed(s: string)
    ensures Trim(s) == "" <==> AllSpaces(s)
  {
    hide IsSpace, TrimRight;
    var left := TrimLeft(s);
    TrimLeftSpaces(s);
    TrimRightSpaces(left);
    assert left[0..] == left;
    assert left != "" ==> left[0] == s[|s| - |left|];
    assert left == "" ==> s[..|s|] == s;
  }

  lemma TrimIsIdempotent(s: string)
    ensures Trim(Trim(s)) == Trim(s)
  {
  }

  // Decimals

  predicate IsDigit(c: char) {
    '0' <= c <= '9'
  }

  predicate AllDigits(s: string) {
    forall i | 0 <= i < |s| :: IsDigit(s[i])
  }

  function Digit(n: nat): (c: char)
    requires n < 10
    ensures IsDigit(c)
  {
    '0' + n as char
  }

  function Decimal(n: nat): (s: string)
    ensures s != [] && AllDigits(s)
  {
    if n < 10 then [Digit(n)] else Decimal(n / 10) + [Digit(n % 10)]
  }

  function ParseNat(s: string): nat
    requires AllDigits(s)
  {
    if s == [] then 0 else 10 * ParseNat(s[..|s| - 1]) + (s[|s| - 1] as int - '0' as int)
  }

  lemma {:induction false} ParseOfDecimal(n: nat)
    ensures ParseNat(Decimal(n)) == n
  {
    if n >= 10 {
      ParseOfDecimal(n / 10);
      assert Decimal(n)[..|Decimal(n)| - 1] == Decimal(n / 10);
    }
  }

  /** A whole number's decimal, with a sign when it is negative. */
  function Whole(n: int): string {
    if n < 0 then "-" + Decimal(-n) else Decimal(n)
  }

  function ParseWhole(s: string): int {
    if s != [] && s[0] == '-' && AllDigits(s[1..]) then
      var n: int := ParseNat(s[1..]);
      -n
    else if AllDigits(s) then ParseNat(s)
    else 0
  }

  lemma ParseOfWhole(n: int)
    ensures ParseWhole(Whole(n)) == n
  {
    if n < 0 {
      ParseOfDecimal(-n);
      assert Whole(n)[1..] == Decimal(-n);
    } else {
      ParseOfDecimal(n);
      assert IsDigit(Decimal(n)[0]);
    }
  }
}
