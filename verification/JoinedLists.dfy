/** What a list that holds references renders to, once the platform gives the references text. */
module JoinedLists {
  import opened Text
  import opened Values
  import opened DerivedVariables

  /** The text a platform gives each output and parameter. */
  type Texts = Value -> string

  function Render(v: Value, texts: Texts): string {
    match v
    case Str(s) => s
    case Concat(parts) => RenderParts(parts, texts)
    case _ => texts(v)
  }

  function RenderParts(parts: seq<Value>, texts: Texts): string {
    if parts == [] then "" else Render(parts[0], texts) + RenderParts(parts[1..], texts)
  }

  function RenderAll(items: seq<Value>, texts: Texts): (r: seq<string>)
    ensures |r| == |items| && forall i | 0 <= i < |items| :: r[i] == Render(items[i], texts)
  {
    if items == [] then [] else [Render(items[0], texts)] + RenderAll(items[1..], texts)
  }

  /** No reference's text holds a comma. */
  ghost predicate CommaFree(texts: Texts) {
    forall v :: ',' !in texts(v)
  }

  /** A concatenation with a comma in one of its literal parts. */
  predicate HoldsComma(v: Value) {
    v.Concat? && exists i :: 0 <= i < |v.parts| && v.parts[i].Str? && ',' in v.parts[i].s
  }

  lemma {:induction false} RenderPartsConcat(a: seq<Value>, b: seq<Value>, texts: Texts)
    ensures RenderParts(a + b, texts) == RenderParts(a, texts) + RenderParts(b, texts)
  {
    if a == [] {
      assert a + b == b;
    } else {
      assert (a + b)[0] == a[0] && (a + b)[1..] == a[1..] + b;
      RenderPartsConcat(a[1..], b, texts);
    }
  }

  lemma {:induction false} JoinOneMore(parts: seq<string>, last: string)
    ensures Join(parts + [last], ',') == if parts == [] then last else Join(parts, ',') + "," + last
  {
    if |parts| > 1 {
      JoinOneMore(parts[1..], last);
      assert (parts + [last])[1..] == parts[1..] + [last];
    }
  }

  /** A joined list is flat: it holds strings, outputs and parameters. */
  lemma {:induction false} JoinedIsFlat(items: seq<Value>)
    requires forall i | 0 <= i < |items| :: IsListed(items[i]) && WellFormed(items[i])
    ensures WellFormed(Concat(JoinedParts(items)))
  {
    if items != [] {
      var before, last := items[..|items| - 1], items[|items| - 1];
      JoinedIsFlat(before);
      assert WellFormed(Concat(JoinedParts(before)));
    }
  }

  /** It renders to its elements' text joined with commas. */
  lemma {:induction false} JoinedRenders(items: seq<Value>, texts: Texts)
    ensures RenderParts(JoinedParts(items), texts) == Join(RenderAll(items, texts), ',')
  {
    if items != [] {
      var before, last := items[..|items| - 1], items[|items| - 1];
      JoinedRenders(before, texts);
      assert RenderAll(items, texts) == RenderAll(before, texts) + [Render(last, texts)];
      JoinOneMore(RenderAll(before, texts), Render(last, texts));
      RenderJoinedOneMore(items, texts);
    }
  }

  lemma RenderJoinedOneMore(items: seq<Value>, texts: Texts)
    requires items != []
    ensures var before, last := items[..|items| - 1], items[|items| - 1];
      RenderParts(JoinedParts(items), texts)
        == (if before == [] then "" else RenderParts(JoinedParts(before), texts) + ",") + Render(last, texts)
  {
    var before, last := items[..|items| - 1], items[|items| - 1];
    var tail := if last.Concat? then last.parts else [last];
    assert RenderParts(tail, texts) == Render(last, texts);
    if before == [] {
      assert JoinedParts(items) == tail;
    } else {
      var comma := [Str(",")];
      RenderPartsConcat(JoinedParts(before) + comma, tail, texts);
      RenderPartsConcat(JoinedParts(before), comma, texts);
      assert RenderParts(comma, texts) == ",";
    }
  }

  lemma {:induction false} StringsRender(items: seq<Value>, texts: Texts)
    requires forall i | 0 <= i < |items| :: items[i].Str?
    ensures Strings(items) == RenderAll(items, texts)
  {
  }

  /** A rendered element holds a comma only where a literal part of a concatenation does. */
  lemma {:induction false} RenderedComma(parts: seq<Value>, texts: Texts)
    requires CommaFree(texts) && forall i | 0 <= i < |parts| :: IsPart(parts[i])
    ensures ',' in RenderParts(parts, texts) <==> exists i :: 0 <= i < |parts| && parts[i].Str? && ',' in parts[i].s
  {
    if parts != [] {
      RenderedComma(parts[1..], texts);
      if i :| 0 <= i < |parts| && parts[i].Str? && ',' in parts[i].s {
        assert i > 0 ==> parts[1..][i - 1] == parts[i];
      }
    }
  }

  /** A list variable renders to its elements' text joined with commas, whatever its references' text. */
  lemma {:induction false} ListRenders(items: seq<Value>, texts: Texts)
    requires forall i | 0 <= i < |items| :: IsListed(items[i])
    ensures Render(Listed(items), texts) == Join(RenderAll(items, texts), ',')
  {
    if HasReference(items) {
      JoinedRenders(items, texts);
    } else {
      assert forall i | 0 <= i < |items| :: items[i].Str?;
      StringsRender(items, texts);
    }
  }

  /** Splitting it at commas gives the elements' text back, for every comma-free text of its references,
      exactly when no concatenation in the list has a comma in a literal part. */
  lemma {:induction false} ListSplits(items: seq<Value>, texts: Texts)
    requires items != [] && CommaFree(texts)
    requires forall i | 0 <= i < |items| :: IsListed(items[i]) && WellFormed(items[i])
    ensures Split(Render(Listed(items), texts), ',') == RenderAll(items, texts)
      <==> forall i | 0 <= i < |items| :: !HoldsComma(items[i])
  {
    hide Render, RenderAll, Listed, Split, Join, HoldsComma, CommaFree, IsListed, WellFormed;
    ListRenders(items, texts);
    var rendered := RenderAll(items, texts);
    SplitUndoesJoin(rendered, ',');
    forall i | 0 <= i < |items| ensures ',' in rendered[i] <==> HoldsComma(items[i]) {
      ElementComma(items[i], texts);
    }
    if i :| 0 <= i < |items| && HoldsComma(items[i]) {
      assert rendered[i] in rendered;
    }
  }

  lemma ElementComma(item: Value, texts: Texts)
    requires IsListed(item) && WellFormed(item) && CommaFree(texts)
    ensures ',' in Render(item, texts) <==> HoldsComma(item)
  {
    if item.Concat? {
      RenderedComma(item.parts, texts);
    }
  }

  /** A list the encoding accepts whose one element splits in two. */
  lemma LiteralCommaSplits(items: seq<Value>, texts: Texts)
    requires items == [Concat([Str("a,b"), Parameter("pr")])] && CommaFree(texts)
    ensures IsListed(items[0]) && WellFormed(items[0])
    ensures Split(Render(Listed(items), texts), ',') != RenderAll(items, texts)
  {
    assert items[0].parts[0].s[1] == ',';
    assert HoldsComma(items[0]);
    ListSplits(items, texts);
  }
}
