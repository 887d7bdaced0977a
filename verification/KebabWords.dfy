/** Where kebab case puts its hyphens: before each word of a name but the first, and for each underscore. */
module KebabWords {
  import opened KebabCase

  predicate IsCapital(c: char) {
    'A' <= c <= 'Z'
  }

  predicate IsSmall(c: char) {
    'a' <= c <= 'z'
  }

  predicate IsSmallOrDigit(c: char) {
    IsSmall(c) || '0' <= c <= '9'
  }

  /** A word of a job's name begins at a capital after a small letter or a digit, and at the last of several
      capitals before one. */
  predicate IsJobWord(s: string, i: nat) {
    && 0 < i < |s| && IsCapital(s[i])
    && (IsSmallOrDigit(s[i - 1]) || (IsCapital(s[i - 1]) && i + 1 < |s| && IsSmallOrDigit(s[i + 1])))
  }

  /** A word of a declaration's name does too, but at the last of several capitals only before a small letter. */
  predicate IsDeclarationWord(s: string, i: nat) {
    && 0 < i < |s| && IsCapital(s[i])
    && (IsSmallOrDigit(s[i - 1]) || (IsCapital(s[i - 1]) && i + 1 < |s| && IsSmall(s[i + 1])))
  }

  function JobWords(s: string): set<nat> {
    set i: nat | i < |s| && IsJobWord(s, i)
  }

  function DeclarationWords(s: string): set<nat> {
    set i: nat | i < |s| && IsDeclarationWord(s, i)
  }

  function UpTo(words: set<nat>, n: nat): nat {
    |set i | i in words && i < n|
  }

  predicate IsWritten(d: char, c: char) {
    d as int == if IsCapital(c) then c as int + 32 else if c == '_' then '-' as int else c as int
  }

  /** Whether r is s in small letters, with a hyphen for each underscore and before each word, and no other. */
  predicate IsHyphenated(r: string, s: string, words: set<nat>) {
    |r| == |s| + UpTo(words, |s|) && forall i | 0 <= i < |s| :: IsWrittenAt(r, s, words, i)
  }

  predicate IsWrittenAt(r: string, s: string, words: set<nat>, i: nat)
    requires i < |s|
  {
    var at := i + UpTo(words, i + 1);
    at < |r| && IsWritten(r[at], s[i]) && (i in words ==> at > 0 && r[at - 1] == '-')
  }

  lemma UpToNext(words: set<nat>, n: nat)
    ensures UpTo(words, n + 1) == UpTo(words, n) + if n in words then 1 else 0
  {
    var before := set i | i in words && i < n;
    assert (set i | i in words && i < n + 1) == before + if n in words then {n} else {};
  }

  /** A name, with a hyphen before each of some words. */
  function WrittenTo(s: string, words: set<nat>, i: nat): string
    requires i <= |s|
  {
    if i == 0 then "" else WrittenTo(s, words, i - 1) + Piece(s, i - 1, i - 1 in words)
  }

  lemma {:induction false} JobIsWritten(s: string, i: nat)
    requires i <= |s|
    ensures KebabTo(s, i) == WrittenTo(s, JobWords(s), i)
  {
    hide Piece;
    if i > 0 {
      JobIsWritten(s, i - 1);
      JobWord(s, i - 1);
    }
  }

  lemma JobWord(s: string, i: nat)
    ensures StartsWord(s, i) <==> i in JobWords(s)
  {
  }

  lemma {:induction false} DeclarationIsWritten(s: string, i: nat)
    requires i <= |s|
    ensures DeclarationTo(s, i) == WrittenTo(s, DeclarationWords(s), i)
  {
    hide Piece;
    if i > 0 {
      DeclarationIsWritten(s, i - 1);
      DeclarationWord(s, i - 1);
    }
  }

  lemma DeclarationWord(s: string, i: nat)
    ensures StartsDeclarationWord(s, i) <==> i in DeclarationWords(s)
  {
  }

  lemma PieceIsWritten(s: string, words: set<nat>, i: nat)
    requires i < |s| && (i in words ==> IsCapital(s[i]))
    ensures var piece := Piece(s, i, i in words);
      && |piece| == (if i in words then 2 else 1)
      && IsWritten(piece[|piece| - 1], s[i]) && (i in words ==> piece[0] == '-')
  {
  }

  lemma {:induction false} WrittenSize(s: string, words: set<nat>, i: nat)
    requires i <= |s| && forall k | k in words :: k < |s| && IsCapital(s[k])
    ensures |WrittenTo(s, words, i)| == i + UpTo(words, i)
  {
    hide Piece, UpTo;
    if i == 0 {
      UpToNone(words);
    } else {
      WrittenSize(s, words, i - 1);
      PieceIsWritten(s, words, i - 1);
      UpToNext(words, i - 1);
    }
  }

  lemma UpToNone(words: set<nat>)
    ensures UpTo(words, 0) == 0
  {
    assert (set i | i in words && i < 0) == {};
  }

  lemma {:induction false} WrittenAt(s: string, words: set<nat>, n: nat, i: nat)
    requires i < n <= |s| && forall k | k in words :: k < |s| && IsCapital(s[k])
    ensures IsWrittenAt(WrittenTo(s, words, n), s, words, i)
  {
    hide Piece, UpTo;
    WrittenSize(s, words, n - 1);
    WrittenSize(s, words, n);
    UpToNext(words, n - 1);
    PieceIsWritten(s, words, n - 1);
    if i < n - 1 {
      WrittenAt(s, words, n - 1, i);
    }
  }

  /** Both rules write a name in small letters, with a hyphen for each underscore and before each word by that rule,
      and nothing more. */
  lemma KebabIsHyphenated(s: string)
    ensures IsHyphenated(KebabOf(s), s, JobWords(s))
    ensures IsHyphenated(DeclarationOf(s), s, DeclarationWords(s))
  {
    hide IsWrittenAt, UpTo;
    JobIsWritten(s, |s|);
    DeclarationIsWritten(s, |s|);
    WrittenSize(s, JobWords(s), |s|);
    WrittenSize(s, DeclarationWords(s), |s|);
    forall i | 0 <= i < |s| ensures IsWrittenAt(KebabOf(s), s, JobWords(s), i) {
      WrittenAt(s, JobWords(s), |s|, i);
    }
    forall i | 0 <= i < |s| ensures IsWrittenAt(DeclarationOf(s), s, DeclarationWords(s), i) {
      WrittenAt(s, DeclarationWords(s), |s|, i);
    }
  }
}
