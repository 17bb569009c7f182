/**
  Where the pruner's removals end: which keys are gone after a loop and what is left of the others, when a
  one-line value is cut out without touching the closing brace, and a value for which the cut breaks the structure.
 */
module PrunerCorners {
  import opened Lexer
  import opened LocalePruner
  import opened TextSearch
  import opened LocaleDocument
  import opened BraceStructure

  // ---------- Keys that occur more than once ----------

  function CountKey(d: Doc, key: string): nat {
    match d
    case End => 0
    case Filler(_, rest) => CountKey(rest, key)
    case Field(k, _, rest) => (if k == key then 1 else 0) + CountKey(rest, key)
    case Group(k, _, _, _, _, rest) => (if k == key then 1 else 0) + CountKey(rest, key)
  }

  lemma {:induction false} RemoveKeyCounts(d: Doc, removed: string, key: string)
    ensures CountKey(RemoveKey(d, removed), key) ==
            if removed == key && CountKey(d, key) > 0 then CountKey(d, key) - 1 else CountKey(d, key)
  {
    match d
    case End =>
    case Filler(_, rest) => RemoveKeyCounts(rest, removed, key);
    case Field(_, _, rest) => RemoveKeyCounts(rest, removed, key);
    case Group(_, _, _, _, _, rest) => RemoveKeyCounts(rest, removed, key);
  }

  /** A loop removes as many properties of a key as the key is listed times, as far as there are that many. */
  lemma {:induction false} RemovalCounts(d: Doc, keys: seq<string>, key: string)
    ensures var listed, present := multiset(keys)[key], CountKey(d, key);
            CountKey(RemoveKeys(d, keys), key) == if listed >= present then 0 else present - listed
    decreases |keys|
  {
    if keys == [] {
      assert multiset(keys)[key] == 0;
    } else {
      RemoveKeyCounts(d, keys[0], key);
      RemovalCounts(RemoveKey(d, keys[0]), keys[1..], key);
      assert keys == [keys[0]] + keys[1..];
    }
  }

  lemma {:induction false} AbsentIff(d: Doc, key: string)
    ensures From(d, key).End? <==> CountKey(d, key) == 0
  {
    match d
    case End =>
    case Filler(_, rest) => AbsentIff(rest, key);
    case Field(_, _, rest) => AbsentIff(rest, key);
    case Group(_, _, _, _, _, rest) => AbsentIff(rest, key);
  }

  /** After a loop no property of a key is left exactly when the object had no more of them than the list names. */
  lemma KeyGoneIff(d: Doc, keys: seq<string>, key: string)
    ensures From(RemoveKeys(d, keys), key).End? <==> CountKey(d, key) <= multiset(keys)[key]
  {
    RemovalCounts(d, keys, key);
    AbsentIff(RemoveKeys(d, keys), key);
  }

  /** The document without its properties of the listed keys. */
  function Others(d: Doc, keys: seq<string>): Doc {
    match d
    case End => End
    case Filler(text, rest) => Filler(text, Others(rest, keys))
    case Field(k, value, rest) => if k in keys then Others(rest, keys) else Field(k, value, Others(rest, keys))
    case Group(k, lead, body, pad, comma, rest) =>
      if k in keys then Others(rest, keys) else Group(k, lead, body, pad, comma, Others(rest, keys))
  }

  lemma {:induction false} OthersWithout(d: Doc, removed: string, keys: seq<string>)
    requires removed in keys
    ensures Others(RemoveKey(d, removed), keys) == Others(d, keys)
  {
    match d
    case End =>
    case Filler(_, rest) => OthersWithout(rest, removed, keys);
    case Field(_, _, rest) => OthersWithout(rest, removed, keys);
    case Group(_, _, _, _, _, rest) => OthersWithout(rest, removed, keys);
  }

  /** A loop leaves every other property and every filler as it is and where it is. */
  lemma {:induction false} OthersKept(d: Doc, keys: seq<string>, removed: seq<string>)
    requires forall k :: k in removed ==> k in keys
    ensures Others(RemoveKeys(d, removed), keys) == Others(d, keys)
    decreases |removed|
  {
    if removed != [] {
      OthersWithout(d, removed[0], keys);
      OthersKept(RemoveKey(d, removed[0]), keys, removed[1..]);
    }
  }

  // ---------- A value on the line of the closing brace ----------

  /**
    The cut of a value that is no object stays before the closing brace exactly when a line break lies between
    them; otherwise it takes the brace and, where there is one, the character behind it.
   */
  lemma ScalarCutSparesBraceIff(s: string, key: string, n: nat, range: Slice, p: nat, v: nat)
    requires MatchedObject(s, range) && Property(s, key, n, range, p, v)
    requires v < range.to && s[v] != '{'
    ensures var cut := PropertyCut(s, key, n, range.from, range.to);
            && (cut.to < range.to <==> '\n' in s[v..range.to - 1])
            && (cut.to >= range.to ==>
                  cut == Slice(p, if range.to < |s| then range.to + 1 else range.to))
  {
    hide FirstMatch, Pattern, SkipSpace, MatchBrace;
    ValueNotSpace(s, Pattern(n, key), range.from, range.to, p - range.from);
    IndexOfIsFirst(s, '\n', v);
    var at := IndexOf(s, '\n', v);
    if v <= at < range.to - 1 {
      assert s[v..range.to - 1][at - v] == '\n';
    }
    assert s[range.to - 1] == '}';
  }

  // ---------- A lookup of a key whose value is no object ----------

  /**
    A lookup that finds an object has found the value of the key exactly when that value begins with a brace;
    otherwise it has gone on to the next opening brace of the text, which belongs to something else.
   */
  lemma FoundObjectIsValueIff(s: string, key: string, n: nat, range: Slice, p: nat, v: nat)
    requires Property(s, key, n, range, p, v) && v < |s|
    requires FindRange(s, key, n, range.from, range.to).Some?
    ensures var found := FindRange(s, key, n, range.from, range.to).value;
            && found.from >= v && (forall q :: v <= q < found.from ==> s[q] != '{')
            && (found.from == v <==> s[v] == '{')
  {
    hide FirstMatch, Pattern, SkipSpace, MatchBrace;
    IndexOfIsFirst(s, '{', v);
  }

  /** A scalar property named like a group before the group hides it: the lookup returns the object in between. */
  lemma LookupMisled()
    ensures FindRange("b: 1\na: {}\nb: {x}", "b", 0, 0, 17) == Some(Slice(8, 10))
  {
    var s, pattern := "b: 1\na: {}\nb: {x}", Pattern(0, "b");
    assert pattern == "b:" && s[0..17] == s && s[0..2] == "b:";
    assert FirstMatch(s, pattern, 0) == 0;
    SkipSpaceIs(s, 2, 17, 3);
    IndexOfIs(s, '{', 3, 8);
    assert MatchFrom(s, 8, Code, 0) == 9;
  }

  // ---------- A value of several lines ----------

  const TEMPLATE := "{\nk: `\n}`\n}"

  lemma TemplateMatches()
    ensures MatchBrace(TEMPLATE, 0) == 10
    ensures MatchBrace("{\n}`\n}", 0) == 2
  {
    var s := TEMPLATE;
    assert MatchFrom(s, 10, Code, 1) == 10;
    assert MatchFrom(s, 8, Str('`'), 1) == 10;
    assert MatchFrom(s, 6, Str('`'), 1) == 10;
    assert MatchFrom(s, 4, Code, 1) == 10;
    assert MatchFrom(s, 2, Code, 1) == 10;
    var t := "{\n}`\n}";
    assert MatchFrom(t, 2, Code, 1) == 2;
  }

  lemma TemplateCut()
    ensures PropertyCut(TEMPLATE, "k", 0, 0, 11) == Slice(2, 7)
  {
    hide MatchBrace;
    var s, pattern := TEMPLATE, Pattern(0, "k");
    assert pattern == "k:";
    assert s[0..11] == s;
    assert s[2..4] == "k:";
    assert FirstMatch(s, pattern, 2) == 2;
    assert s[0..2] != "k:" && FirstMatch(s, pattern, 0) == 2 by {
      assert s[0..2][0] == '{' && s[1..3][0] == '\n';
      assert FirstMatch(s, pattern, 1) == 2;
    }
    SkipSpaceIs(s, 4, 11, 5);
    IndexOfIs(s, '\n', 5, 6);
    SkipSpaceIs(s, 5, 6, 5);
  }

  /** A template literal of two lines is cut after its first one, and the object then ends too early. */
  lemma TemplateBreaksStructure()
    ensures var cut, pruned := PropertyCut(TEMPLATE, "k", 0, 0, 11), RemoveProperty(TEMPLATE, "k", 0, 0, 11);
            && MatchedObject(TEMPLATE, Slice(0, 11))
            && MatchBrace(pruned, 0) != MatchBrace(TEMPLATE, 0) - (cut.to - cut.from)
  {
    hide PropertyCut, MatchBrace;
    TemplateMatches();
    TemplateCut();
    assert TEMPLATE[..2] + TEMPLATE[7..] == "{\n}`\n}";
  }
}
