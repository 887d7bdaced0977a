/** Names in kebab case: the rule jobs are named by, the one memory store declarations are named by, and
    where they differ. */
module KebabCase {
  import opened Text

  predicate UpperAt(s: string, i: int) {
    0 <= i < |s| && IsUpper(s[i])
  }

  predicate LowerAt(s: string, i: int) {
    0 <= i < |s| && IsLower(s[i])
  }

  predicate DigitAt(s: string, i: int) {
    0 <= i < |s| && IsDigit(s[i])
  }

  // Job names

  /** Where a job's name starts a word: after a lower-case letter or a digit, or after another capital
      and before one of those. */
  predicate StartsWord(s: string, i: int) {
    UpperAt(s, i)
    && (LowerAt(s, i - 1) || DigitAt(s, i - 1) || (UpperAt(s, i - 1) && (LowerAt(s, i + 1) || DigitAt(s, i + 1))))
  }

  function Piece(s: string, i: nat, starts: bool): string
    requires i < |s|
  {
    if UpperAt(s, i) then (if starts then "-" else "") + [LowerOf(s[i])]
    else if s[i] == '_' then "-"
    else [s[i]]
  }

  /** A job's name in kebab case, up to the character at i. */
  function KebabTo(s: string, i: nat): string
    requires i <= |s|
  {
    if i == 0 then "" else KebabTo(s, i - 1) + Piece(s, i - 1, StartsWord(s, i - 1))
  }

  function KebabOf(s: string): string {
    KebabTo(s, |s|)
  }

  method Kebab(name: string) returns (r: string)
    ensures r == KebabOf(name)
  {
    hide IsUpper, IsLower, IsDigit, LowerOf;
    r := "";
    for i := 0 to |name|
      invariant r == KebabTo(name, i)
    {
      if UpperAt(name, i) {
        if LowerAt(name, i - 1) || DigitAt(name, i - 1)
          || (UpperAt(name, i - 1) && (LowerAt(name, i + 1) || DigitAt(name, i + 1))) {
          r := r + "-";
        }
        r := r + [LowerOf(name[i])];
      } else if name[i] == '_' {
        r := r + "-";
      } else {
        r := r + [name[i]];
      }
    }
  }

  // Declaration names

  /** Where a declaration's name starts a word: as a job's, but a digit after two capitals starts none. */
  predicate StartsDeclarationWord(s: string, i: int) {
    UpperAt(s, i)
    && i > 0 && (LowerAt(s, i - 1) || DigitAt(s, i - 1) || (UpperAt(s, i - 1) && LowerAt(s, i + 1)))
  }

  function DeclarationTo(s: string, i: nat): string
    requires i <= |s|
  {
    if i == 0 then "" else DeclarationTo(s, i - 1) + Piece(s, i - 1, StartsDeclarationWord(s, i - 1))
  }

  function DeclarationOf(s: string): string {
    DeclarationTo(s, |s|)
  }

  method DeclarationName(symbol: string) returns (r: string)
    ensures r == DeclarationOf(symbol)
  {
    r := "";
    for i := 0 to |symbol|
      invariant r == DeclarationTo(symbol, i)
    {
      if IsUpper(symbol[i]) {
        if i > 0 {
          var prev := symbol[i - 1];
          var nextLower := i + 1 < |symbol| && IsLower(symbol[i + 1]);
          if IsLower(prev) || IsDigit(prev) || (IsUpper(prev) && nextLower) {
            r := r + "-";
          }
        }
        r := r + [LowerOf(symbol[i])];
        continue;
      }
      if symbol[i] == '_' {
        r := r + "-";
        continue;
      }
      r := r + [symbol[i]];
    }
  }

  // Where the two differ

  /** Two capitals, then a digit: the character at i is the second capital. */
  predicate IsTriple(s: string, i: int) {
    UpperAt(s, i - 1) && UpperAt(s, i) && DigitAt(s, i + 1)
  }

  function Triples(s: string, i: nat): nat
    requires i <= |s|
  {
    if i == 0 then 0 else Triples(s, i - 1) + if IsTriple(s, i - 1) then 1 else 0
  }

  lemma {:induction false} LongerByTriples(s: string, i: nat)
    requires i <= |s|
    ensures |KebabTo(s, i)| == |DeclarationTo(s, i)| + Triples(s, i)
    ensures Triples(s, i) == 0 ==> KebabTo(s, i) == DeclarationTo(s, i)
  {
    if i > 0 {
      LongerByTriples(s, i - 1);
      TripleStarts(s, i - 1);
    }
  }

  /** At a triple a job's name starts a word and a declaration's does not, unless both do not or both do. */
  lemma TripleStarts(s: string, i: nat)
    requires i < |s|
    ensures StartsWord(s, i) <==> StartsDeclarationWord(s, i) || IsTriple(s, i)
    ensures !(StartsDeclarationWord(s, i) && IsTriple(s, i))
  {
  }

  /** A job's name in kebab case is longer than a declaration's by one hyphen for each two capitals before
      a digit; so the two agree exactly when there are none. */
  lemma KebabsDiffer(s: string)
    ensures |KebabOf(s)| == |DeclarationOf(s)| + Triples(s, |s|)
    ensures KebabOf(s) == DeclarationOf(s) <==> forall i | 0 <= i < |s| :: !IsTriple(s, i)
  {
    LongerByTriples(s, |s|);
    CountsTriples(s, |s|);
  }

  lemma {:induction false} CountsTriples(s: string, i: nat)
    requires i <= |s|
    ensures Triples(s, i) == 0 <==> forall j | 0 <= j < i :: !IsTriple(s, j)
  {
    if i > 0 {
      CountsTriples(s, i - 1);
    }
  }

  // What kebab case is

  /** Neither capitals nor underscores. */
  predicate IsKebab(s: string) {
    forall i | 0 <= i < |s| :: !IsUpper(s[i]) && s[i] != '_'
  }

  lemma {:induction false} OutputIsKebab(s: string, i: nat)
    requires i <= |s|
    ensures IsKebab(KebabTo(s, i)) && IsKebab(DeclarationTo(s, i))
  {
    hide IsKebab, StartsWord, StartsDeclarationWord, Piece;
    if i == 0 {
      NothingIsKebab();
    } else {
      OutputIsKebab(s, i - 1);
      PieceIsKebab(KebabTo(s, i - 1), s, i - 1, StartsWord(s, i - 1));
      PieceIsKebab(DeclarationTo(s, i - 1), s, i - 1, StartsDeclarationWord(s, i - 1));
    }
  }

  lemma NothingIsKebab()
    ensures IsKebab("")
  {
  }

  lemma PieceIsKebab(before: string, s: string, i: nat, starts: bool)
    requires i < |s| && IsKebab(before)
    ensures IsKebab(before + Piece(s, i, starts))
  {
    assert IsKebab(Piece(s, i, starts));
  }

  lemma {:induction false} KebabIsKept(s: string, i: nat)
    requires i <= |s| && IsKebab(s)
    ensures KebabTo(s, i) == s[..i] && DeclarationTo(s, i) == s[..i]
  {
    if i > 0 {
      KebabIsKept(s, i - 1);
      assert s[..i] == s[..i - 1] + [s[i - 1]];
    }
  }

  /** Kebab case keeps exactly the names without capitals and underscores, and gives such a name: it is
      idempotent, by either rule. */
  lemma KebabIsIdempotent(s: string)
    ensures KebabOf(s) == s <==> IsKebab(s)
    ensures DeclarationOf(s) == s <==> IsKebab(s)
    ensures KebabOf(KebabOf(s)) == KebabOf(s) && DeclarationOf(DeclarationOf(s)) == DeclarationOf(s)
  {
    OutputIsKebab(s, |s|);
    if IsKebab(s) {
      KebabIsKept(s, |s|);
    }
    KebabIsKept(KebabOf(s), |KebabOf(s)|);
    KebabIsKept(DeclarationOf(s), |DeclarationOf(s)|);
  }

  /** The letters and digits of a name, in lower case: without its hyphens and underscores. */
  function Letters(s: string): string {
    if s == "" then "" else Letters(s[..|s| - 1]) + LetterOf(s[|s| - 1])
  }

  function LetterOf(c: char): string {
    if c == '-' || c == '_' then "" else [LowerOf(c)]
  }

  lemma {:induction false} LettersConcat(a: string, b: string)
    ensures Letters(a + b) == Letters(a) + Letters(b)
  {
    hide LetterOf;
    if b == "" {
      assert a + b == a;
    } else {
      assert (a + b)[..|a + b| - 1] == a + b[..|b| - 1];
      LettersConcat(a, b[..|b| - 1]);
    }
  }

  /** Kebab case changes only hyphens, underscores and case, by either rule. */
  lemma {:induction false} KebabKeepsLetters(s: string, i: nat)
    requires i <= |s|
    ensures Letters(KebabTo(s, i)) == Letters(s[..i]) && Letters(DeclarationTo(s, i)) == Letters(s[..i])
  {
    hide Letters, Piece, StartsWord, StartsDeclarationWord;
    if i > 0 {
      KebabKeepsLetters(s, i - 1);
      LettersOneMore(KebabTo(s, i - 1), s, i, StartsWord(s, i - 1));
      LettersOneMore(DeclarationTo(s, i - 1), s, i, StartsDeclarationWord(s, i - 1));
    } else {
      assert s[..0] == "";
    }
  }

  lemma LettersOneMore(before: string, s: string, i: nat, starts: bool)
    requires 0 < i <= |s| && Letters(before) == Letters(s[..i - 1])
    ensures Letters(before + Piece(s, i - 1, starts)) == Letters(s[..i])
  {
    hide Piece, LetterOf, Letters;
    LettersConcat(before, Piece(s, i - 1, starts));
    PieceLetters(s, i - 1, starts);
    LettersTo(s, i);
  }

  lemma LettersTo(s: string, i: nat)
    requires 0 < i <= |s|
    ensures Letters(s[..i]) == Letters(s[..i - 1]) + LetterOf(s[i - 1])
  {
    hide LetterOf;
    assert s[..i][..i - 1] == s[..i - 1];
  }

  lemma PieceLetters(s: string, i: nat, starts: bool)
    requires i < |s|
    ensures Letters(Piece(s, i, starts)) == LetterOf(s[i])
  {
    var p := Piece(s, i, starts);
    LettersTo(p, |p|);
    assert p[..|p|] == p;
    if |p| == 2 {
      LettersTo(p, 1);
      assert p[0] == '-' && p[..0] == "";
    } else {
      assert p[..0] == "";
    }
  }
}
