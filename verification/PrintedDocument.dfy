/**
  Printed documents under the scanner and under the property search: they are balanced, and the
  search for a key finds the first item of the document with that key or nothing at all.
 */
module PrintedDocument {
  import opened Lexer
  import opened LocalePruner
  import opened TextSearch
  import opened LocaleDocument

  // ---------- Balance ----------

  lemma FieldBalanced(n: nat, key: string, value: string)
    requires IsKey(key) && IsScalar(value)
    ensures Balanced(FieldText(n, key, value))
  {
    PatternShape(n, key);
    PlainRuns(Pattern(n, key) + " ", 1);
    assert FieldText(n, key, value) == (Pattern(n, key) + " ") + (value + "\n");
    BalancedConcat(Pattern(n, key) + " ", value + "\n");
  }

  lemma GroupBalanced(n: nat, key: string, inner: string, comma: bool)
    requires IsKey(key) && Balanced(inner)
    ensures Balanced(GroupHead(n, key) + "{" + inner + "}" + GroupTail(comma))
  {
    PatternShape(n, key);
    var head, tail := GroupHead(n, key), GroupTail(comma);
    PlainRuns(head, 1);
    PlainRuns(tail, 1);
    BracesBalanced(inner);
    BalancedConcat("{" + inner + "}", tail);
    BalancedConcat(head, "{" + inner + "}" + tail);
    assert head + "{" + inner + "}" + tail == head + ("{" + inner + "}" + tail);
  }

  lemma {:induction false} RenderBalanced(d: Doc, n: nat)
    requires WellFormed(d)
    ensures Balanced(Render(d, n))
  {
    match d
    case End =>
    case Filler(text, rest) =>
      RenderBalanced(rest, n);
      BalancedConcat(text, Render(rest, n));
    case Field(key, value, rest) =>
      RenderBalanced(rest, n);
      FieldBalanced(n, key, value);
      BalancedConcat(FieldText(n, key, value), Render(rest, n));
    case Group(key, lead, body, pad, comma, rest) =>
      RenderBalanced(rest, n);
      RenderBalanced(body, n + 4);
      InnerBalanced(lead, Render(body, n + 4), pad);
      var inner := lead + Render(body, n + 4) + Spaces(pad);
      GroupBalanced(n, key, inner, comma);
      BalancedConcat(GroupHead(n, key) + "{" + inner + "}" + GroupTail(comma), Render(rest, n));
  }

  lemma InnerBalanced(lead: string, bodyText: string, pad: nat)
    requires Balanced(lead) && Balanced(bodyText)
    ensures Balanced(lead + bodyText + Spaces(pad))
  {
    PlainRuns(Spaces(pad), 1);
    BalancedConcat(lead, bodyText);
    BalancedConcat(lead + bodyText, Spaces(pad));
  }

  // ---------- Lines ----------

  lemma EndsLineConcat(a: string, b: string)
    requires EndsLine(b) && (b != "" || EndsLine(a))
    ensures EndsLine(a + b)
  {
  }

  // ---------- Quiet text ----------

  /** The text of a group, up to and including its line break, when the searched key is another one. */
  lemma GroupQuiet(n: nat, key: string, lead: string, bodyText: string, pad: nat, comma: bool, n': nat, key': string)
    requires IsKey(key) && IsKey(key') && (n != n' || key != key')
    requires Quiet(lead, Pattern(n', key')) && Quiet(bodyText, Pattern(n', key'))
    requires bodyText == "" || (lead != "" && EndsLine(lead))
    ensures Quiet(GroupHead(n, key) + "{" + (lead + bodyText + Spaces(pad)) + "}" + GroupTail(comma), Pattern(n', key'))
  {
    var pattern := Pattern(n', key');
    PatternShape(n', key');
    GroupHeadQuiet(n, key, lead, n', key');
    var head := GroupHead(n, key) + "{" + lead;
    if bodyText != "" {
      QuietConcat(head, bodyText, pattern);
    } else {
      assert head + bodyText == head;
    }
    var close := Spaces(pad) + "}" + GroupTail(comma);
    QuietAppend(head + bodyText, close, pattern);
    assert GroupHead(n, key) + "{" + (lead + bodyText + Spaces(pad)) + "}" + GroupTail(comma) ==
           head + bodyText + close;
  }

  lemma NothingQuiet(pattern: string)
    requires pattern != ""
    ensures Quiet("", pattern)
  {
  }

  lemma FieldEndsLine(n: nat, key: string, value: string)
    ensures EndsLine(FieldText(n, key, value))
  {
  }

  /** At a deeper indentation, nothing matches but what the fillers might hide. */
  lemma {:induction false} DeeperQuiet(d: Doc, n: nat, n': nat, key': string)
    requires WellFormed(d) && IsKey(key') && n > n'
    requires Shy(d, Pattern(n', key'))
    ensures Quiet(Render(d, n), Pattern(n', key'))
  {
    var pattern := Pattern(n', key');
    PatternShape(n', key');
    NothingQuiet(pattern);
    hide Quiet, Pattern, FieldText, GroupHead, IsKey;
    match d
    case End =>
    case Filler(text, rest) =>
      DeeperQuiet(rest, n, n', key');
      QuietConcat(text, Render(rest, n), pattern);
    case Field(key, value, rest) =>
      DeeperQuiet(rest, n, n', key');
      FieldQuiet(n, key, value, n', key');
      FieldEndsLine(n, key, value);
      QuietConcat(FieldText(n, key, value), Render(rest, n), pattern);
    case Group(key, lead, body, pad, comma, rest) =>
      DeeperQuiet(rest, n, n', key');
      DeeperQuiet(body, n + 4, n', key');
      GroupQuiet(n, key, lead, Render(body, n + 4), pad, comma, n', key');
      var text := GroupHead(n, key) + "{" + (lead + Render(body, n + 4) + Spaces(pad)) + "}" + GroupTail(comma);
      assert EndsLine(text);
      QuietConcat(text, Render(rest, n), pattern);
  }

  // ---------- Before the first item with a key ----------

  function TextBefore(d: Doc, n: nat, key: string): string {
    match d
    case End => ""
    case Filler(text, rest) => text + TextBefore(rest, n, key)
    case Field(k, value, rest) =>
      if k == key then "" else FieldText(n, k, value) + TextBefore(rest, n, key)
    case Group(k, lead, body, pad, comma, rest) =>
      if k == key then "" else
      GroupHead(n, k) + "{" + (lead + Render(body, n + 4) + Spaces(pad)) + "}" + GroupTail(comma) +
      TextBefore(rest, n, key)
  }

  lemma {:induction false} TextBeforeQuiet(d: Doc, n: nat, key: string)
    requires WellFormed(d) && IsKey(key) && Shy(d, Pattern(n, key))
    ensures Quiet(TextBefore(d, n, key), Pattern(n, key))
    ensures EndsLine(TextBefore(d, n, key))
  {
    var pattern := Pattern(n, key);
    PatternShape(n, key);
    match d
    case End =>
    case Filler(text, rest) =>
      TextBeforeQuiet(rest, n, key);
      QuietConcat(text, TextBefore(rest, n, key), pattern);
    case Field(k, value, rest) =>
      if k != key {
        TextBeforeQuiet(rest, n, key);
        FieldQuiet(n, k, value, n, key);
        QuietConcat(FieldText(n, k, value), TextBefore(rest, n, key), pattern);
      }
    case Group(k, lead, body, pad, comma, rest) =>
      if k != key {
        TextBeforeQuiet(rest, n, key);
        DeeperQuiet(body, n + 4, n, key);
        GroupQuiet(n, k, lead, Render(body, n + 4), pad, comma, n, key);
        var text := GroupHead(n, k) + "{" + (lead + Render(body, n + 4) + Spaces(pad)) + "}" + GroupTail(comma);
        assert EndsLine(text);
        QuietConcat(text, TextBefore(rest, n, key), pattern);
      }
  }

  /** The text of the first item of a document. */
  function FirstText(d: Doc, n: nat): string {
    match d
    case End => ""
    case Filler(text, _) => text
    case Field(key, value, _) => FieldText(n, key, value)
    case Group(key, lead, body, pad, comma, _) =>
      GroupHead(n, key) + "{" + (lead + Render(body, n + 4) + Spaces(pad)) + "}" + GroupTail(comma)
  }

  lemma FirstRendered(d: Doc, n: nat, key: string)
    requires !d.End?
    ensures Render(d, n) == FirstText(d, n) + Render(d.rest, n)
    ensures d.Filler? || d.key != key ==>
              TextBefore(d, n, key) == FirstText(d, n) + TextBefore(d.rest, n, key)
  {
    hide FieldText, GroupHead, GroupTail, Spaces;
  }

  lemma {:induction false} RenderSplits(d: Doc, n: nat, key: string)
    ensures Render(d, n) == TextBefore(d, n, key) + Render(From(d, key), n)
  {
    if !d.End? && (d.Filler? || d.key != key) {
      RenderSplits(d.rest, n, key);
      FirstRendered(d, n, key);
      hide Render, TextBefore, FirstText;
      Associative(FirstText(d, n), TextBefore(d.rest, n, key), Render(From(d.rest, key), n));
    } else {
      NothingBefore(d, n, key);
    }
  }

  lemma NothingBefore(d: Doc, n: nat, key: string)
    requires d.End? || (!d.Filler? && d.key == key)
    ensures TextBefore(d, n, key) == "" && From(d, key) == d
    ensures "" + Render(d, n) == Render(d, n)
    ensures !d.End? ==> RemoveKey(d, key) == d.rest && "" + Render(d.rest, n) == Render(d.rest, n)
  {
    hide Render;
  }

  lemma {:induction false} FromKey(d: Doc, key: string)
    ensures From(d, key).End? || From(d, key).Field? || From(d, key).Group?
    ensures !From(d, key).End? ==> From(d, key).key == key
    ensures WellFormed(d) ==> WellFormed(From(d, key))
  {
    match d
    case End =>
    case Filler(text, rest) => FromKey(rest, key);
    case Field(k, value, rest) => FromKey(rest, key);
    case Group(k, lead, body, pad, comma, rest) => FromKey(rest, key);
  }

  lemma RemoveBehind(d: Doc, n: nat, key: string)
    requires !d.End? && (d.Filler? || d.key != key)
    ensures From(d, key) == From(d.rest, key)
    ensures RemoveKey(d.rest, key) == d.rest ==> RemoveKey(d, key) == d
    ensures Render(RemoveKey(d, key), n) == FirstText(d, n) + Render(RemoveKey(d.rest, key), n)
  {
    hide FieldText, GroupHead, GroupTail, Spaces;
  }

  /** Removing a key from the document cuts exactly that item's text. */
  lemma {:induction false} RemoveKeySplits(d: Doc, n: nat, key: string)
    ensures From(d, key).End? ==> RemoveKey(d, key) == d
    ensures From(d, key).Field? || From(d, key).Group? ==>
              Render(RemoveKey(d, key), n) == TextBefore(d, n, key) + Render(From(d, key).rest, n)
  {
    if d.End? {
    } else if d.Filler? || d.key != key {
      RemoveKeySplits(d.rest, n, key);
      RemoveBehind(d, n, key);
      FirstRendered(d, n, key);
      hide Render, TextBefore, FirstText, From, RemoveKey;
      if From(d, key).Field? || From(d, key).Group? {
        Associative(FirstText(d, n), TextBefore(d.rest, n, key), Render(From(d.rest, key).rest, n));
      }
    } else {
      NothingBefore(d, n, key);
    }
  }

  lemma {:induction false} SetGroupSplits(d: Doc, n: nat, key: string, lead: string, body: Doc, pad: nat)
    requires From(d, key).Group?
    ensures From(SetGroup(d, key, lead, body, pad), key) == From(d, key).(lead := lead, body := body, pad := pad)
    ensures TextBefore(SetGroup(d, key, lead, body, pad), n, key) == TextBefore(d, n, key)
  {
    match d
    case End =>
    case Filler(text, rest) => SetGroupSplits(rest, n, key, lead, body, pad);
    case Field(k, value, rest) => SetGroupSplits(rest, n, key, lead, body, pad);
    case Group(k, lead0, body0, pad0, comma, rest) =>
      if k != key {
        SetGroupSplits(rest, n, key, lead, body, pad);
      }
  }

  // ---------- The search ----------

  /**
    Searching `open + document + close` for a key at the document's own indentation finds the first
    item with the key, and nothing when there is none.
   */
  lemma SearchInDocument(open: string, d: Doc, n: nat, close: string, key: string)
    requires WellFormed(d) && IsKey(key) && Shy(d, Pattern(n, key))
    requires Quiet(open, Pattern(n, key)) && (EndsLine(open) || d.End?)
    requires Quiet(close, Pattern(n, key)) && (EndsLine(open) || ':' !in close)
    ensures FirstMatch(open + Render(d, n) + close, Pattern(n, key), 0) ==
            if From(d, key).End? then -1 else |open| + |TextBefore(d, n, key)|
  {
    hide MatchesAt, FirstMatch, Render, TextBefore, Shy, Pattern, Quiet, From, WellFormed, EndsLine;
    var pattern := Pattern(n, key);
    PatternShape(n, key);
    EmptyRender(n);
    if !EndsLine(open) {
      QuietAppend(open, close, pattern);
      QuietFindsNothing(open + close, pattern);
      EmptyFrom(key);
    } else {
      TextBeforeQuiet(d, n, key);
      RenderSplits(d, n, key);
      FromKey(d, key);
      var before, item := TextBefore(d, n, key), Render(From(d, key), n);
      EndsLineConcat(open, before);
      QuietConcat(open, before, pattern);
      if From(d, key).End? {
        QuietConcat(open + before, close, pattern);
        QuietFindsNothing(open + before + close, pattern);
      } else {
        ItemMatches(From(d, key), n, close);
        FoundBehindLines(open + before, item + close, pattern);
        Regroup(open, before, item, close);
      }
    }
  }

  lemma Regroup(a: string, b: string, c: string, d: string)
    ensures a + (b + c) + d == a + b + (c + d)
  {
  }

  lemma EmptyFrom(key: string)
    ensures From(End, key).End?
  {
  }

  lemma EmptyRender(n: nat)
    ensures Render(End, n) == "" && forall a: string :: a + Render(End, n) == a
  {
  }

  lemma ItemMatches(d: Doc, n: nat, tail: string)
    requires (d.Field? || d.Group?) && IsKey(d.key)
    ensures MatchesAt(Render(d, n) + tail, 0, Pattern(n, d.key))
  {
    hide MatchesAt, IsKey;
    var item, head := Render(d, n), Pattern(n, d.key);
    assert |head| <= |item| && item[..|head|] == head;
    assert item + tail == head + (item[|head|..] + tail);
    HeadMatches(n, d.key, n, d.key, item[|head|..] + tail);
  }

  lemma CloseQuiet(pad: nat, post: string, n: nat, key: string)
    requires IsKey(key) && Quiet(post, Pattern(n, key))
    ensures Quiet(Spaces(pad) + "}" + post, Pattern(n, key))
  {
    var pattern := Pattern(n, key);
    PatternShape(n, key);
    var head := Spaces(pad) + "}";
    var t := head + post;
    forall p: nat
      ensures !MatchesAt(t, p, pattern)
    {
      if 0 < p <= |head| && p < |t| {
        assert head[p - 1] in head;
        assert t[p - 1] == head[p - 1];
      } else if p > |head| && p + |pattern| <= |t| {
        assert t[p..p + |pattern|] == post[p - |head|..p - |head| + |pattern|];
        assert !MatchesAt(post, p - |head|, pattern);
      } else if p == 0 {
        if n <= pad {
          Differs(t, 0, pattern, n);
        } else {
          Differs(t, 0, pattern, pad);
        }
      }
    }
  }
}
