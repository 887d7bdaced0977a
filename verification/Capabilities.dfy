/** The pattern of an operation's capability, and the checks that explain why a name is no capability. */
module Capabilities {
  import opened Text

  /** Regular expressions, as much as the pattern needs. */
  datatype Regex = Alnum | Lit(c: char) | Cat(a: Regex, b: Regex) | Star(r: Regex)

  predicate IsAlnum(c: char) {
    'a' <= c <= 'z' || IsDigit(c)
  }

  ghost predicate Matches(r: Regex, s: string)
    decreases r, |s|
  {
    match r
    case Alnum => |s| == 1 && IsAlnum(s[0])
    case Lit(c) => s == [c]
    case Cat(a, b) => exists i :: 0 <= i <= |s| && Matches(a, s[..i]) && Matches(b, s[i..])
    case Star(a) => s == "" || exists i :: 0 < i <= |s| && Matches(a, s[..i]) && Matches(r, s[i..])
  }

  function Plus(r: Regex): Regex {
    Cat(r, Star(r))
  }

  /** `[a-z0-9]+` */
  const WORD := Plus(Alnum)

  /** `[a-z0-9]+(?:-[a-z0-9]+)*` */
  const SEGMENT := Cat(WORD, Star(Cat(Lit('-'), WORD)))

  /** `[a-z0-9]+(?:-[a-z0-9]+)*(?:\.[a-z0-9]+(?:-[a-z0-9]+)*)+` */
  const CAPABILITY := Cat(SEGMENT, Plus(Cat(Lit('.'), SEGMENT)))

  // What the pattern matches

  lemma {:induction false} StarOfAlnum(s: string)
    ensures Matches(Star(Alnum), s) <==> forall i | 0 <= i < |s| :: IsAlnum(s[i])
    decreases |s|
  {
    if s != "" {
      StarOfAlnum(s[1..]);
      assert s[..1] == [s[0]];
      assert forall i | 0 < i <= |s| && Matches(Alnum, s[..i]) :: i == 1;
      assert forall i | 0 < i < |s| :: s[i] == s[1..][i - 1];
    }
  }

  lemma WordMatches(s: string)
    ensures Matches(WORD, s) <==> s != "" && forall i | 0 <= i < |s| :: IsAlnum(s[i])
  {
    if s != "" {
      StarOfAlnum(s[1..]);
      assert s[..1] == [s[0]];
      assert forall i | 0 <= i <= |s| && Matches(Alnum, s[..i]) :: i == 1;
      assert forall i | 0 < i < |s| :: s[i] == s[1..][i - 1];
    }
  }

  ghost predicate PiecesMatch(x: Regex, s: string, sep: char) {
    forall p | p in Split(s, sep) :: Matches(x, p)
  }

  /** A string matches some number of items, each after a separator no item holds, when it is empty, or
      begins with a separator and the pieces after it are items. */
  lemma {:induction false} StarOfSeparated(x: Regex, sep: char, s: string)
    requires forall t | Matches(x, t) :: sep !in t
    ensures Matches(Star(Cat(Lit(sep), x)), s) <==> s == "" || (s[0] == sep && PiecesMatch(x, s[1..], sep))
    decreases |s|, 1
  {
    if s != "" {
      if Matches(Star(Cat(Lit(sep), x)), s) {
        StarIsSeparated(x, sep, s);
      }
      if s[0] == sep && PiecesMatch(x, s[1..], sep) {
        SeparatedIsStar(x, sep, s);
      }
    }
  }

  lemma {:induction false} StarIsSeparated(x: Regex, sep: char, s: string)
    requires (forall t | Matches(x, t) :: sep !in t) && s != "" && Matches(Star(Cat(Lit(sep), x)), s)
    ensures s[0] == sep && PiecesMatch(x, s[1..], sep)
    decreases |s|, 0
  {
    var item := Cat(Lit(sep), x);
    var i :| 0 < i <= |s| && Matches(item, s[..i]) && Matches(Star(item), s[i..]);
    ItemMatches(x, sep, s[..i]);
    assert s[..i][1..] == s[1..i];
    StarOfSeparated(x, sep, s[i..]);
    SplitAtItem(sep, s, i);
  }

  lemma {:induction false} SeparatedIsStar(x: Regex, sep: char, s: string)
    requires (forall t | Matches(x, t) :: sep !in t) && s != "" && s[0] == sep && PiecesMatch(x, s[1..], sep)
    ensures Matches(Star(Cat(Lit(sep), x)), s)
    decreases |s|, 0
  {
    var i := FirstItem(s, sep);
    SplitAtItem(sep, s, i);
    var pieces := Split(s[1..], sep);
    assert pieces[0] in pieces && pieces[0] == s[1..i];
    ItemMatches(x, sep, s[..i]);
    assert s[..i][1..] == s[1..i];
    if i < |s| {
      forall p | p in Split(s[i..][1..], sep) ensures Matches(x, p) {
        assert p in pieces;
      }
    }
    StarOfSeparated(x, sep, s[i..]);
  }

  lemma ItemMatches(x: Regex, sep: char, t: string)
    ensures Matches(Cat(Lit(sep), x), t) <==> t != "" && t[0] == sep && Matches(x, t[1..])
  {
  }

  /** Where the first separator after the leading one is, or the end. */
  lemma FirstItem(s: string, sep: char) returns (i: nat)
    requires s != ""
    ensures 0 < i <= |s| && sep !in s[1..i] && (i < |s| ==> s[i] == sep)
  {
    i := 1;
    while i < |s| && s[i] != sep
      invariant 0 < i <= |s| && sep !in s[1..i]
    {
      i := i + 1;
    }
  }

  /** The pieces after the leading separator are the item up to i, and those after i. */
  lemma SplitAtItem(sep: char, s: string, i: nat)
    requires s != "" && 0 < i <= |s| && sep !in s[1..i] && (i < |s| ==> s[i] == sep)
    ensures Split(s[1..], sep) == if i < |s| then [s[1..i]] + Split(s[i..][1..], sep) else [s[1..i]]
  {
    SplitOfWhole(s[1..i], sep);
    if i < |s| {
      assert s[1..] == s[1..i] + [sep] + s[i + 1..];
      assert s[i..][1..] == s[i + 1..];
      SplitAtSeparator(s[1..i], s[i + 1..], sep);
    } else {
      assert s[1..i] == s[1..];
    }
  }

  lemma LeadingSeparator(x: Regex, sep: char, s: string, i: nat)
    requires i <= |s|
    ensures var item, t := Cat(Lit(sep), x), [sep] + s;
      Matches(item, t[..i + 1]) && Matches(Star(item), t[i + 1..]) <==> Matches(x, s[..i]) && Matches(Star(item), s[i..])
  {
    var t := [sep] + s;
    ItemMatches(x, sep, t[..i + 1]);
    assert t[..i + 1][1..] == s[..i] && t[i + 1..] == s[i..];
  }

  /** Items with a separator between them match a string exactly when its pieces between separators are items. */
  lemma SeparatedMatches(x: Regex, sep: char, s: string)
    requires forall t | Matches(x, t) :: sep !in t
    ensures Matches(Cat(x, Star(Cat(Lit(sep), x))), s) <==> PiecesMatch(x, s, sep)
  {
    var item, t := Cat(Lit(sep), x), [sep] + s;
    StarOfSeparated(x, sep, t);
    assert t[1..] == s;
    if Matches(Cat(x, Star(item)), s) {
      var i :| 0 <= i <= |s| && Matches(x, s[..i]) && Matches(Star(item), s[i..]);
      LeadingSeparator(x, sep, s, i);
      assert Matches(Star(item), t);
    }
    if Matches(Star(item), t) {
      var j :| 0 < j <= |t| && Matches(item, t[..j]) && Matches(Star(item), t[j..]);
      LeadingSeparator(x, sep, s, j - 1);
    }
  }

  predicate AllOf(s: string, allowed: char -> bool) {
    forall i | 0 <= i < |s| :: allowed(s[i])
  }

  /** The pieces between separators hold only allowed characters when the string does, but for separators. */
  lemma {:induction false} PiecesHold(t: string, sep: char, allowed: char -> bool)
    ensures (forall p | p in Split(t, sep) :: AllOf(p, allowed)) <==> forall i | 0 <= i < |t| ::
      t[i] == sep || allowed(t[i])
  {
    if t != "" {
      var u, rest := t[1..], Split(t[1..], sep);
      PiecesHold(u, sep, allowed);
      assert forall i | 0 < i < |t| :: t[i] == u[i - 1];
      assert forall i | 0 <= i < |u| :: u[i] == t[i + 1];
      if t[0] == sep {
        assert forall p :: p in Split(t, sep) <==> p == [] || p in rest;
      } else {
        var first := [t[0]] + rest[0];
        assert AllOf(first, allowed) <==> allowed(t[0]) && AllOf(rest[0], allowed) by {
          assert first[0] == t[0];
          assert forall i | 0 <= i < |rest[0]| :: first[i + 1] == rest[0][i];
        }
        assert forall p :: p in rest <==> p == rest[0] || p in rest[1..];
        assert forall p :: p in Split(t, sep) <==> p == first || p in rest[1..];
      }
    }
  }

  // What the checks say

  /** The characters a capability may hold. */
  predicate IsCapabilityChar(c: char) {
    IsAlnum(c) || c == '.' || c == '-'
  }

  /** No hyphen at an edge of the segment or beside another, and the segment is not empty. */
  predicate HyphensApart(t: string) {
    && t != "" && t[0] != '-' && t[|t| - 1] != '-'
    && forall i | 0 < i < |t| :: !(t[i - 1] == '-' && t[i] == '-')
  }

  datatype Problem =
    | HoldsOther(at: nat)
    | OneSegment
    | EmptySegment
    | MisplacedHyphen(segment: string)
    | NotSegments

  lemma {:induction false} NoPieceIsEmpty(t: string)
    ensures "" !in Split(t, '-') <==> HyphensApart(t)
    decreases |t|
  {
    var pieces := Split(t, '-');
    if t == "" || t[0] == '-' {
      assert pieces[0] == "" && pieces[0] in pieces;
    } else {
      var u := t[1..];
      var rest := Split(u, '-');
      var first := [t[0]] + rest[0];
      assert forall p :: p in pieces <==> p == first || p in rest[1..];
      if u != "" && u[0] == '-' {
        assert rest[1..] == Split(u[1..], '-');
        NoPieceIsEmpty(u[1..]);
        HyphensApartAfter(t, 2);
      } else if u != "" {
        NoPieceIsEmpty(u);
        HyphensApartAfter(t, 1);
        assert forall p :: p in rest <==> p == rest[0] || p in rest[1..];
      }
    }
  }

  lemma HyphensApartAfter(t: string, n: nat)
    requires 0 < n <= 2 && n <= |t| && t[0] != '-' && (n == 2 ==> t[1] == '-') && (n == 1 ==> |t| > 1 && t[1] != '-')
    ensures HyphensApart(t) <==> HyphensApart(t[n..])
  {
  }

  /** A segment: letters, digits and hyphens, each hyphen between two others. */
  lemma SegmentMatches(t: string)
    ensures Matches(SEGMENT, t) <==> HyphensApart(t) && forall i | 0 <= i < |t| :: t[i] == '-' || IsAlnum(t[i])
  {
    hide Matches, HyphensApart;
    forall s ensures Matches(WORD, s) <==> s != "" && AllOf(s, IsAlnum) {
      WordMatches(s);
    }
    SeparatedMatches(WORD, '-', t);
    PiecesHold(t, '-', IsAlnum);
    NoPieceIsEmpty(t);
  }

  /** A capability: two or more segments between dots. */
  lemma CapabilityMatches(s: string)
    ensures Matches(CAPABILITY, s) <==> |Split(s, '.')| >= 2 && PiecesMatch(SEGMENT, s, '.')
  {
    var item := Cat(Lit('.'), SEGMENT);
    forall t | Matches(SEGMENT, t) ensures '.' !in t {
      SegmentMatches(t);
    }
    SeparatedMatches(SEGMENT, '.', s);
    if Matches(CAPABILITY, s) {
      var i :| 0 <= i <= |s| && Matches(SEGMENT, s[..i]) && Matches(Plus(item), s[i..]);
      PlusIsStar(SEGMENT, '.', s[i..]);
      assert Matches(Cat(SEGMENT, Star(item)), s);
      assert s[i] == s[i..][0] == '.';
      SplitsInTwo(s, '.');
    }
    if |Split(s, '.')| >= 2 && PiecesMatch(SEGMENT, s, '.') {
      var i :| 0 <= i <= |s| && Matches(SEGMENT, s[..i]) && Matches(Star(item), s[i..]);
      if i == |s| {
        assert s[..i] == s;
        SplitOfWhole(s, '.');
      }
      PlusIsStar(SEGMENT, '.', s[i..]);
    }
  }

  lemma PlusIsStar(x: Regex, sep: char, t: string)
    ensures var item := Cat(Lit(sep), x);
      Matches(Plus(item), t) <==> t != "" && Matches(Star(item), t)
    ensures Matches(Plus(Cat(Lit(sep), x)), t) ==> t[0] == sep
  {
    var item := Cat(Lit(sep), x);
    forall i | 0 <= i <= |t| && Matches(item, t[..i]) ensures i > 0 && t[0] == sep {
      ItemMatches(x, sep, t[..i]);
    }
  }

  /** Every character of a capability is one it may hold, and so is every character of a segment. */
  lemma CapabilityHolds(s: string)
    ensures Matches(CAPABILITY, s) ==> forall i | 0 <= i < |s| :: IsCapabilityChar(s[i])
    ensures (forall i | 0 <= i < |s| :: IsCapabilityChar(s[i])) ==>
      forall p, i | p in Split(s, '.') && 0 <= i < |p| :: p[i] == '-' || IsAlnum(p[i])
  {
    hide Matches, HyphensApart;
    var allowed := c => c == '-' || IsAlnum(c);
    CapabilityMatches(s);
    PiecesHold(s, '.', allowed);
    forall p | p in Split(s, '.') && Matches(SEGMENT, p) ensures AllOf(p, allowed) {
      SegmentMatches(p);
    }
  }

  /** The pattern accepts exactly the names of allowed characters with two or more segments, none empty
      and none with a misplaced hyphen. */
  lemma CapabilityIsSegments(s: string)
    ensures Matches(CAPABILITY, s) <==>
      && (forall i | 0 <= i < |s| :: IsCapabilityChar(s[i]))
      && |Split(s, '.')| >= 2
      && forall p | p in Split(s, '.') :: HyphensApart(p)
  {
    hide Matches, HyphensApart;
    CapabilityMatches(s);
    CapabilityHolds(s);
    forall p | p in Split(s, '.')
      ensures Matches(SEGMENT, p) <==> HyphensApart(p) && forall i | 0 <= i < |p| :: p[i] == '-' || IsAlnum(p[i])
    {
      SegmentMatches(p);
    }
  }

  lemma EmptyIsNoSegment()
    ensures !HyphensApart("")
  {
  }

  /** The first segment of a name that is empty or has a misplaced hyphen. */
  predicate IsFirstBad(segment: string, s: string) {
    var segments := Split(s, '.');
    exists k :: 0 <= k < |segments| && segments[k] == segment && !HyphensApart(segment)
      && forall j | 0 <= j < k :: HyphensApart(segments[j])
  }

  /** Says why a name the pattern refuses is no capability. */
  method CapabilityProblem(s: string) returns (p: Problem)
    ensures p.NotSegments? <==> Matches(CAPABILITY, s)
    ensures p.HoldsOther? ==>
      p.at < |s| && !IsCapabilityChar(s[p.at]) && forall i | 0 <= i < p.at :: IsCapabilityChar(s[i])
    ensures p.OneSegment? ==> (forall i | 0 <= i < |s| :: IsCapabilityChar(s[i])) && '.' !in s
    ensures p.EmptySegment? ==> '.' in s && (forall i | 0 <= i < |s| :: IsCapabilityChar(s[i])) && IsFirstBad("", s)
    ensures p.MisplacedHyphen? ==>
      '.' in s && (forall i | 0 <= i < |s| :: IsCapabilityChar(s[i])) && p.segment != "" && IsFirstBad(p.segment, s)
  {
    hide Matches, HyphensApart;
    for i := 0 to |s|
      invariant forall j | 0 <= j < i :: IsCapabilityChar(s[j])
    {
      if !IsCapabilityChar(s[i]) {
        CapabilityHolds(s);
        return HoldsOther(i);
      }
    }
    CapabilityMatches(s);
    CapabilityHolds(s);
    var segments := Split(s, '.');
    if |segments| < 2 {
      if '.' in s { SplitsInTwo(s, '.'); }
      return OneSegment;
    }
    if '.' !in s { SplitOfWhole(s, '.'); }
    for k := 0 to |segments|
      invariant forall j | 0 <= j < k :: Matches(SEGMENT, segments[j]) && HyphensApart(segments[j])
    {
      SegmentMatches(segments[k]);
      if segments[k] == "" {
        EmptyIsNoSegment();
        return EmptySegment;
      }
      if !HyphensApart(segments[k]) {
        return MisplacedHyphen(segments[k]);
      }
    }
    p := NotSegments;
  }
}
