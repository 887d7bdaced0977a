/** The names of a memory store's entries: segments joined with colons under the store's prefix. */
module MemoryStoreNames {
  import opened Basics
  import opened Text

  /** One byte of a name's UTF-8. */
  newtype Byte = x: int | 0 <= x < 256

  type Bytes = seq<Byte>

  const COLON: Byte := 0x3a
  const AT: Byte := 0x40
  const MAX_SEGMENT := 128

  /** The printable bytes no segment holds: `:`, `*`, `?`, `[`, `]`, `@` and the backslash. */
  const REFUSED: Bytes := [COLON, 0x2a, 0x3f, 0x5b, 0x5d, AT, 0x5c]

  predicate IsAllowed(c: Byte) {
    c >= 0x20 && c != 0x7f && c !in REFUSED
  }

  predicate IsSegment(s: Bytes) {
    1 <= |s| <= MAX_SEGMENT && forall i | 0 <= i < |s| :: IsAllowed(s[i])
  }

  /** The characters that a pattern of keys, or a full name, reads as its own. */
  predicate IsMark(c: char) {
    c == ':' || c == '@' || c == '*' || c == '?' || c == '[' || c == ']' || c == '\\'
  }

  /** A segment is 1 to 128 bytes, none of them a control character or a mark. */
  lemma SegmentBytes(s: Bytes)
    ensures IsSegment(s) <==>
      && 0 < |s| <= 128
      && forall i | 0 <= i < |s| :: 31 < s[i] as int && s[i] as int != 127 && !IsMark(s[i] as int as char)
  {
    assert forall c: Byte :: c in REFUSED <==> IsMark(c as int as char);
  }

  method CheckSegment(s: Bytes) returns (ok: bool)
    ensures ok == IsSegment(s)
  {
    if s == [] || |s| > MAX_SEGMENT {
      return false;
    }
    for i := 0 to |s|
      invariant forall j | 0 <= j < i :: IsAllowed(s[j])
    {
      if !IsAllowed(s[i]) {
        return false;
      }
    }
    ok := true;
  }

  /** A declaration's name and its parts, joined with colons; none when one of them breaks the rule. */
  method Name(declaration: Bytes, parts: seq<Bytes>) returns (r: Option<Bytes>)
    ensures r.Some? <==> IsSegment(declaration) && forall p | p in parts :: IsSegment(p)
    ensures r.Some? ==> r.value == Join([declaration] + parts, COLON)
  {
    hide IsSegment;
    var ok := CheckSegment(declaration);
    if !ok {
      return None;
    }
    var name := declaration;
    for i := 0 to |parts|
      invariant forall p | p in parts[..i] :: IsSegment(p)
      invariant name == Join([declaration] + parts[..i], COLON)
    {
      ok := CheckSegment(parts[i]);
      if !ok {
        return None;
      }
      assert parts[..i + 1] == parts[..i] + [parts[i]];
      assert [declaration] + parts[..i + 1] == ([declaration] + parts[..i]) + [parts[i]];
      JoinOneMore([declaration] + parts[..i], parts[i], COLON);
      name := name + [COLON] + parts[i];
    }
    assert parts[..|parts|] == parts;
    r := Some(name);
  }

  lemma {:induction false} JoinOneMore<T>(parts: seq<seq<T>>, last: seq<T>, sep: T)
    requires parts != []
    ensures Join(parts + [last], sep) == Join(parts, sep) + [sep] + last
  {
    if |parts| > 1 {
      JoinOneMore(parts[1..], last, sep);
      assert (parts + [last])[1..] == parts[1..] + [last];
    }
  }

  /** A store's prefix, in a member of a parameterized environment with the member's name. */
  function Prefix(store: Bytes, member: Bytes): Bytes {
    if member == [] then store else store + [AT] + member
  }

  function FullName(store: Bytes, member: Bytes, declaration: Bytes, parts: seq<Bytes>): Bytes {
    Prefix(store, member) + [COLON] + Join([declaration] + parts, COLON)
  }

  /** An entry whose store, member and segments all keep the rule; an empty member is no member. */
  predicate IsEntry(store: Bytes, member: Bytes, declaration: Bytes, parts: seq<Bytes>) {
    && IsSegment(store) && (member == [] || IsSegment(member))
    && IsSegment(declaration) && forall i | 0 <= i < |parts| :: IsSegment(parts[i])
  }

  lemma SegmentHolds(s: Bytes, c: Byte)
    requires IsSegment(s) && c in REFUSED
    ensures c !in s
  {
  }

  lemma PrefixHasNoColon(store: Bytes, member: Bytes)
    requires IsSegment(store) && (member == [] || IsSegment(member))
    ensures COLON !in Prefix(store, member)
  {
  }

  /** A full name's pieces between colons are its prefix, its declaration and its parts. */
  lemma FullNameSplits(store: Bytes, member: Bytes, declaration: Bytes, parts: seq<Bytes>)
    requires IsEntry(store, member, declaration, parts)
    ensures Split(FullName(store, member, declaration, parts), COLON) == [Prefix(store, member), declaration] + parts
  {
    hide IsSegment, Prefix;
    PrefixHasNoColon(store, member);
    var segments := [declaration] + parts;
    assert COLON == REFUSED[0];
    forall s | s in segments ensures COLON !in s {
      SegmentHolds(s, COLON);
    }
    SplitUndoesJoin(segments, COLON);
    SplitOfWhole(Prefix(store, member), COLON);
    SplitAtSeparator(Prefix(store, member), Join(segments, COLON), COLON);
    assert [Prefix(store, member)] + segments == [Prefix(store, member), declaration] + parts;
  }

  /** A prefix's pieces between at signs are its store, and its member when it has one. */
  lemma PrefixSplits(store: Bytes, member: Bytes)
    requires IsSegment(store) && (member == [] || IsSegment(member))
    ensures Split(Prefix(store, member), AT) == if member == [] then [store] else [store, member]
  {
    hide IsSegment;
    assert AT == REFUSED[5];
    SegmentHolds(store, AT);
    SplitOfWhole(store, AT);
    if member != [] {
      SegmentHolds(member, AT);
      SplitOfWhole(member, AT);
      SplitAtSeparator(store, member, AT);
    }
  }

  /** No two entries share a full name. */
  lemma FullNameIsInjective(
    store: Bytes, member: Bytes, declaration: Bytes, parts: seq<Bytes>,
    store': Bytes, member': Bytes, declaration': Bytes, parts': seq<Bytes>)
    requires IsEntry(store, member, declaration, parts) && IsEntry(store', member', declaration', parts')
    requires FullName(store, member, declaration, parts) == FullName(store', member', declaration', parts')
    ensures store == store' && member == member' && declaration == declaration' && parts == parts'
  {
    hide IsSegment, Prefix, FullName;
    FullNameSplits(store, member, declaration, parts);
    FullNameSplits(store', member', declaration', parts');
    var pieces := [Prefix(store, member), declaration] + parts;
    assert pieces == [Prefix(store', member'), declaration'] + parts';
    assert pieces[0] == Prefix(store, member) == Prefix(store', member');
    assert pieces[1] == declaration == declaration';
    assert pieces[2..] == parts && pieces[2..] == parts';
    PrefixSplits(store, member);
    PrefixSplits(store', member');
    OneOrTwo(store, member, store', member');
  }

  lemma OneOrTwo(store: Bytes, member: Bytes, store': Bytes, member': Bytes)
    requires (if member == [] then [store] else [store, member])
      == (if member' == [] then [store'] else [store', member'])
    ensures store == store' && member == member'
  {
  }
}
