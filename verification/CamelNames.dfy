/** Names in camel case, which the segments of variables' names keep apart. */
module CamelNames {
  import opened Text
  import opened DerivedVariables

  /** A name in camel case, as members have: a lower-case letter, then letters and digits, no two
      upper-case letters in a row. */
  predicate IsCamel(s: string) {
    s != "" && IsLower(s[0]) && forall i | 0 <= i < |s| :: CamelAt(s, i)
  }

  predicate CamelAt(s: string, i: nat)
    requires i < |s|
  {
    IsLower(s[i]) || IsDigit(s[i]) || (IsUpper(s[i]) && i > 0 && !IsUpper(s[i - 1]))
  }

  /** The segments of names in camel case nest only when the names do. */
  lemma {:induction false} CamelNests(a: string, b: string, i: nat)
    requires IsCamel(a) && IsCamel(b)
    requires i <= |a| && i <= |b| && a[..i] == b[..i]
    requires SegmentFrom(a, i) <= SegmentFrom(b, i)
    ensures a <= b
    decreases |a| - i
  {
    if i < |a| {
      CamelPiece(a, i);
      assert |SegmentPiece(a, i)| <= |SegmentFrom(b, i)|;
      assert i < |b|;
      CamelPiece(b, i);
      PiecesAlike(a, b, i, SegmentFrom(a, i + 1), SegmentFrom(b, i + 1));
      assert a[..i + 1] == a[..i] + [a[i]] && b[..i + 1] == b[..i] + [b[i]];
      CamelNests(a, b, i + 1);
    }
  }

  lemma CamelPiece(s: string, i: nat)
    requires IsCamel(s) && i < |s|
    ensures SegmentPiece(s, i) == if IsUpper(s[i]) then ['_', s[i]] else [ToUpper(s[i])]
  {
    assert CamelAt(s, i) && (i > 0 ==> CamelAt(s, i - 1));
  }

  lemma PiecesAlike(a: string, b: string, i: nat, x: string, y: string)
    requires IsCamel(a) && IsCamel(b) && i < |a| && i < |b|
    requires SegmentPiece(a, i) + x <= SegmentPiece(b, i) + y
    ensures a[i] == b[i] && x <= y
  {
    CamelPiece(a, i);
    CamelPiece(b, i);
    var p, q := SegmentPiece(a, i), SegmentPiece(b, i);
    assert (p + x)[0] == (q + y)[0];
    assert CamelAt(a, i) && CamelAt(b, i);
    if IsUpper(a[i]) {
      assert (p + x)[1] == (q + y)[1];
    }
    assert p == q;
    assert x == (p + x)[|p|..] && y == (q + y)[|q|..];
  }

  /** Two such names never give one segment, and one's segment is followed by an underscore in the other's
      only where the one begins the other. */
  lemma SegmentsApart(k: string, k': string)
    requires IsCamel(k) && IsCamel(k') && k != k'
    ensures Segment(k) != Segment(k')
    ensures Segment(k) + "_" <= Segment(k') ==> k <= k'
  {
    if Segment(k) == Segment(k') {
      CamelNests(k, k', 0);
      CamelNests(k', k, 0);
    } else if Segment(k) + "_" <= Segment(k') {
      assert Segment(k) <= Segment(k') by { assert Segment(k) <= Segment(k) + "_"; }
      CamelNests(k, k', 0);
    }
  }
}
