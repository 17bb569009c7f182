/**
  Pruning the printed text is printing the pruned document: for one removal, for the lookup of an
  object by its path, for a whole loop of removals, and for both passes over a locale source.
 */
module DocumentPruning {
  import opened Lexer
  import opened LocalePruner
  import opened TextSearch
  import opened LocaleDocument
  import opened PrintedDocument

  // ---------- One item inside a text ----------

  lemma ValueAfterHead(left: string, n: nat, key: string, right: string, start: nat, end: nat)
    requires start <= |left| && |left| + |Pattern(n, key)| + 1 < end <= |left + GroupHead(n, key) + right|
    requires right != "" && !IsSpace(right[0])
    ensures ValueStart(left + GroupHead(n, key) + right, Pattern(n, key), start, end, |left| - start) ==
            |left| + |Pattern(n, key)| + 1
  {
    var text, p := left + GroupHead(n, key) + right, |left| + |Pattern(n, key)|;
    assert text[p] == ' ' && text[p + 1] == right[0];
    SkipSpaceIs(text, p, end, p + 1);
  }

  /** The cut for a one-line field is exactly its line. */
  lemma FieldCut(left: string, n: nat, key: string, value: string, right: string, start: nat, end: nat)
    requires IsKey(key) && IsScalar(value)
    requires start <= |left| && |left + FieldText(n, key, value)| <= end <= |left + FieldText(n, key, value) + right|
    requires FirstMatch((left + FieldText(n, key, value) + right)[start..end], Pattern(n, key), 0) == |left| - start
    ensures PropertyCut(left + FieldText(n, key, value) + right, key, n, start, end) ==
            Slice(|left|, |left + FieldText(n, key, value)|)
  {
    hide FirstMatch, MatchBrace, AfterObject, IsSpace, Pattern, Balanced, ValueStart, SkipSpace, IsKey, IndexOf;
    var text := left + FieldText(n, key, value) + right;
    var tail := value + "\n" + right;
    assert text == left + GroupHead(n, key) + tail;
    ValueAfterHead(left, n, key, tail, start, end);
    var v := |left| + |Pattern(n, key)| + 1;
    ValueNotSpace(text, Pattern(n, key), start, end, |left| - start);
    assert text[v..] == tail;
    assert text[v] == value[0];
    forall q | v <= q < v + |value|
      ensures text[q] != '\n'
    {
      assert text[q] == value[q - v] && value[q - v] in value;
    }
    assert text[v + |value|] == '\n';
    IndexOfIs(text, '\n', v, v + |value|);
  }

  lemma BraceOfGroup(left: string, inner: string, right: string)
    requires Balanced(inner)
    ensures MatchBrace(left + "{" + inner + "}" + right, |left|) == |left| + |inner| + 1
  {
    hide Balanced;
    var text := left + "{" + inner + "}" + right;
    BracesClose(inner, right);
    MatchFromIsScan(text, |left|, Code, 0);
    assert text[|left|..] == "{" + inner + "}" + right;
  }

  /** The cut for a group is exactly its text, comma and line break included. */
  lemma GroupCut(
    left: string, n: nat, key: string, inner: string, comma: bool, right: string, start: nat, end: nat)
    requires IsKey(key) && Balanced(inner)
    requires var item := GroupHead(n, key) + "{" + inner + "}" + GroupTail(comma);
             && start <= |left| && |left + item| <= end <= |left + item + right|
             && FirstMatch((left + item + right)[start..end], Pattern(n, key), 0) == |left| - start
    ensures var item := GroupHead(n, key) + "{" + inner + "}" + GroupTail(comma);
            PropertyCut(left + item + right, key, n, start, end) == Slice(|left|, |left + item|)
  {
    hide FirstMatch, MatchBrace, AfterObject, ValueLineEnd, ValueStart, SkipSpace, Pattern, Balanced, IsKey;
    var item := GroupHead(n, key) + "{" + inner + "}" + GroupTail(comma);
    var text := left + item + right;
    var tail := "{" + inner + "}" + (GroupTail(comma) + right);
    assert text == left + GroupHead(n, key) + tail;
    ValueAfterHead(left, n, key, tail, start, end);
    var v := |left| + |Pattern(n, key)| + 1;
    ValueNotSpace(text, Pattern(n, key), start, end, |left| - start);
    BraceOfGroup(left + GroupHead(n, key), inner, GroupTail(comma) + right);
    assert text == (left + GroupHead(n, key)) + "{" + inner + "}" + (GroupTail(comma) + right);
    assert text[v] == '{';
    AfterGroup(left + GroupHead(n, key) + "{" + inner, comma, right);
    assert text == (left + GroupHead(n, key) + "{" + inner) + "}" + GroupTail(comma) + right;
  }

  lemma AfterGroup(left: string, comma: bool, right: string)
    ensures AfterObject(left + "}" + GroupTail(comma) + right, |left|) == |left| + 1 + |GroupTail(comma)|
  {
    var text := left + "}" + GroupTail(comma) + right;
    assert text[|left| + 1] == GroupTail(comma)[0];
    assert comma ==> text[|left| + 2] == '\n';
  }

  /** The range found for a group runs from its opening to its closing brace. */
  lemma GroupFound(
    left: string, n: nat, key: string, inner: string, right: string, start: nat, end: nat)
    requires IsKey(key) && Balanced(inner)
    requires var item := GroupHead(n, key) + "{" + inner + "}";
             && start <= |left| && |left + item| <= end <= |left + item + right|
             && FirstMatch((left + item + right)[start..end], Pattern(n, key), 0) == |left| - start
    ensures FindRange(left + (GroupHead(n, key) + "{" + inner + "}") + right, key, n, start, end) ==
            Some(Slice(|left + GroupHead(n, key)|, |left + GroupHead(n, key)| + |inner| + 2))
  {
    hide FirstMatch, MatchBrace, Pattern, Balanced;
    var text := left + (GroupHead(n, key) + "{" + inner + "}") + right;
    var tail := "{" + inner + "}" + right;
    assert text == left + GroupHead(n, key) + tail;
    ValueAfterHead(left, n, key, tail, start, end);
    var v := |left| + |Pattern(n, key)| + 1;
    assert text[v] == '{';
    BraceOfGroup(left + GroupHead(n, key), inner, right);
    assert text == (left + GroupHead(n, key)) + "{" + inner + "}" + right;
  }

  // ---------- A document in its surroundings ----------

  /** What surrounds a document: text out of the search range, and the opening and closing of the range. */
  datatype Frame = Frame(outside: string, open: string, close: string, after: string) {
    function Text(d: Doc, n: nat): string {
      outside + (open + Render(d, n) + close) + after
    }

    function Range(d: Doc, n: nat): Slice {
      Slice(|outside|, |outside| + |open| + |Render(d, n)| + |close|)
    }

    /** The document's surroundings do not look like the property that the pattern searches for. */
    ghost predicate Quietly(d: Doc, pattern: string) {
      && Quiet(open, pattern) && (EndsLine(open) || d.End?)
      && Quiet(close, pattern) && (EndsLine(open) || ':' !in close)
    }
  }

  lemma SearchInFrame(fr: Frame, d: Doc, n: nat, key: string)
    requires WellFormed(d) && IsKey(key) && Shy(d, Pattern(n, key)) && fr.Quietly(d, Pattern(n, key))
    ensures var range := fr.Range(d, n);
            range.to <= |fr.Text(d, n)| &&
            FirstMatch(fr.Text(d, n)[range.from..range.to], Pattern(n, key), 0) ==
            if From(d, key).End? then -1 else |fr.open| + |TextBefore(d, n, key)|
  {
    hide FirstMatch, Quiet, Render, Shy, From, TextBefore;
    SearchInDocument(fr.open, d, n, fr.close, key);
    var range := fr.Range(d, n);
    assert fr.Text(d, n)[range.from..range.to] == fr.open + Render(d, n) + fr.close;
  }

  /** The text of the first item with the key, line break included. */
  function ItemText(d: Doc, n: nat): string
    requires d.Field? || d.Group?
  {
    match d
    case Field(key, value, _) => FieldText(n, key, value)
    case Group(key, lead, body, pad, comma, _) =>
      GroupHead(n, key) + "{" + (lead + Render(body, n + 4) + Spaces(pad)) + "}" + GroupTail(comma)
  }

  lemma ItemCut(left: string, d: Doc, n: nat, right: string, start: nat, end: nat)
    requires (d.Field? || d.Group?) && WellFormed(d)
    requires start <= |left| && |left + ItemText(d, n)| <= end <= |left + ItemText(d, n) + right|
    requires FirstMatch((left + ItemText(d, n) + right)[start..end], Pattern(n, d.key), 0) == |left| - start
    ensures RemoveProperty(left + ItemText(d, n) + right, d.key, n, start, end) == left + right
  {
    hide FirstMatch, PropertyCut, Pattern, Balanced, FieldText, GroupHead, GroupTail, Spaces, Render, IsScalar;
    var text, cut := left + ItemText(d, n) + right, Slice(|left|, |left + ItemText(d, n)|);
    match d
    case Field(key, value, _) =>
      FieldCut(left, n, key, value, right, start, end);
      assert Without(text, cut) == left + right;
    case Group(key, lead, body, pad, comma, _) =>
      GroupParts(d, n + 4);
      GroupCut(left, n, key, lead + Render(body, n + 4) + Spaces(pad), comma, right, start, end);
      assert Without(text, cut) == left + right;
  }

  lemma RenderItem(d: Doc, n: nat)
    requires d.Field? || d.Group?
    ensures Render(d, n) == ItemText(d, n) + Render(d.rest, n)
  {
  }

  lemma TextAround(fr: Frame, before: string, item: string, rest: string)
    ensures fr.outside + (fr.open + (before + item + rest) + fr.close) + fr.after ==
            (fr.outside + fr.open + before) + item + (rest + fr.close + fr.after)
    ensures before + (item + rest) == before + item + rest
  {
  }

  /** Removing a property of the printed document is printing the document without its first item with that key. */
  lemma RemovalCommutes(fr: Frame, d: Doc, n: nat, key: string)
    requires WellFormed(d) && IsKey(key) && Shy(d, Pattern(n, key)) && fr.Quietly(d, Pattern(n, key))
    ensures fr.Range(d, n).to <= |fr.Text(d, n)|
    ensures RemoveProperty(fr.Text(d, n), key, n, fr.Range(d, n).from, fr.Range(d, n).to) ==
            fr.Text(RemoveKey(d, key), n)
  {
    hide FirstMatch, TextBefore, Shy, RemoveKey, RemoveProperty, Pattern, WellFormed, Render, From, ItemText, IsKey,
      Quiet, EndsLine;
    SearchInFrame(fr, d, n, key);
    FromKey(d, key);
    RenderSplits(d, n, key);
    RemoveKeySplits(d, n, key);
    var range, item := fr.Range(d, n), From(d, key);
    if item.End? {
      NothingCut(fr.Text(d, n), key, n, range);
    } else {
      RenderItem(item, n);
      var left := fr.outside + fr.open + TextBefore(d, n, key);
      var right := Render(item.rest, n) + fr.close + fr.after;
      TextAround(fr, TextBefore(d, n, key), ItemText(item, n), Render(item.rest, n));
      TextAround(fr, TextBefore(d, n, key), "", Render(item.rest, n));
      assert left + "" == left && TextBefore(d, n, key) + "" == TextBefore(d, n, key);
      assert fr.Text(d, n) == left + ItemText(item, n) + right;
      ItemCut(left, item, n, right, range.from, range.to);
    }
  }

  lemma NothingCut(text: string, key: string, n: nat, range: Slice)
    requires range.from <= range.to <= |text|
    requires FirstMatch(text[range.from..range.to], Pattern(n, key), 0) == -1
    ensures RemoveProperty(text, key, n, range.from, range.to) == text
  {
  }

  lemma FieldParts(d: Doc)
    requires d.Field? && WellFormed(d)
    ensures IsKey(d.key) && IsScalar(d.value)
  {
  }

  lemma GroupParts(d: Doc, n: nat)
    requires d.Group? && WellFormed(d)
    ensures IsKey(d.key) && WellFormed(d.body)
    ensures d.body.End? || (d.lead != "" && EndsLine(d.lead))
    ensures Balanced(d.lead + Render(d.body, n) + Spaces(d.pad))
  {
    RenderBalanced(d.body, n);
    InnerBalanced(d.lead, Render(d.body, n), d.pad);
  }
}
