/**
  What keeping listed properties does to the brace structure: for every text exactly when the object around them
  still closes where it should, and for printed documents which kept items that depends on.
 */
module KeptStructure {
  import opened Lexer
  import opened LocalePruner
  import opened TextSearch
  import opened LocaleDocument
  import opened PrintedDocument
  import opened DocumentPruning
  import opened DocumentPasses
  import opened LocalePasses

  // ---------- Every text ----------

  lemma {:induction false} RestOfLineEnds(content: string, low: nat, e: nat)
    requires low <= e <= |content|
    ensures RestOfLine(content, low, e).Some? ==> content[RestOfLine(content, low, e).value - 1] == '\n'
    decreases e
  {
    if !(e < |content| && content[e] != '\n' && IndexOf(content, '\n', e) != -1) && e != low {
      RestOfLineEnds(content, low, e - 1);
    }
  }

  lemma {:induction false} KeptLineEnds(content: string, pattern: string, from: nat)
    requires from <= |content|
    ensures var line := KeptLine(content, pattern, from); line == "" || line[|line| - 1] == '\n'
    decreases |content| - from
  {
    hide RestOfLine, FirstMatch, SkipSpace;
    var hit := FirstMatch(content, pattern, from);
    if hit != -1 {
      var low := hit + |pattern|;
      var rest := RestOfLine(content, low, SkipSpace(content, low, |content|));
      RestOfLineEnds(content, low, SkipSpace(content, low, |content|));
      if rest.Some? {
        LastOfSlice(content, hit, rest.value);
      } else if hit < |content| {
        KeptLineEnds(content, pattern, hit + 1);
      }
    }
  }

  lemma LastOfSlice(t: string, i: nat, j: nat)
    requires i < j <= |t|
    ensures |t[i..j]| == j - i && t[i..j][j - i - 1] == t[j - 1]
  {
  }

  /** What is kept is made of whole lines. */
  lemma {:induction false} KeptLinesEnd(content: string, n: nat, keys: seq<string>)
    ensures var kept := KeptLines(content, n, keys); kept == "" || kept[|kept| - 1] == '\n'
    decreases |keys|
  {
    hide KeptLine;
    if keys != [] {
      KeptLineEnds(content, Pattern(n, keys[0]), 0);
      KeptLinesEnd(content, n, keys[1..]);
    }
  }

  function Braced(before: string, lines: string, after: string): string {
    before + "{\n" + lines + "}" + after
  }

  /** Between a brace with a line break behind it and a closing brace, lines are matched exactly when balanced. */
  lemma LinesCloseIff(before: string, lines: string, after: string)
    requires lines != "" && lines[|lines| - 1] == '\n'
    ensures MatchBrace(Braced(before, lines, after), |before|) == |before| + 2 + |lines| <==> Balanced(lines)
  {
    hide Scan, MatchFrom;
    var text, tail := Braced(before, lines, after), "}" + after;
    MatchFromIsScan(text, |before|, Code, 0);
    assert text[|before|..] == ['{'] + (['\n'] + (lines + tail));
    ScanCons('{', ['\n'] + (lines + tail), Code, 0);
    ScanCons('\n', lines + tail, Code, 1);
    ScanConcat(lines, tail, Code, 1);
    var state := Scan(lines, Code, 1);
    if state.Running? {
      ClosesFirstIff(after, state.mode, state.depth);
      if state.mode == Slash {
        EndsInSlash(lines, state.depth);
      }
    }
  }

  lemma ClosesFirstIff(after: string, m: Mode, d: int)
    ensures Scan("}" + after, m, d) == Closed(0) <==> InCode(m) && d == 1
  {
    assert ("}" + after)[0] == '}';
  }

  lemma EndsInSlash(lines: string, d: int)
    requires lines != "" && Scan(lines, Code, 1) == Running(Slash, d)
    ensures lines[|lines| - 1] == '/'
  {
    var front, last := lines[..|lines| - 1], lines[|lines| - 1];
    assert lines == front + [last];
    ScanConcat(front, [last], Code, 1);
    assert [last][1..] == "";
    assert forall m, e :: Scan([last], m, e) == Running(Slash, d) ==> last == '/';
  }

  /**
    For every text: after listed properties of an object have been kept, the object closes right behind them
    exactly when the kept lines are balanced.
   */
  lemma KeptClosesIff(
    s: string, key: string, n: nat, keys: seq<string>, start: nat, end: nat, range: Slice, kept: string)
    requires start <= end <= |s| && FindRange(s, key, n, start, end) == Some(range)
    requires range.from + 1 <= range.to - 1
    requires kept == KeptLines(s[range.from + 1..range.to - 1], n + 4, keys) && kept != ""
    ensures MatchBrace(KeepProperties(s, key, n, keys, start, end), range.from) == range.from + 2 + |kept| <==>
            Balanced(kept)
  {
    hide KeptLines, MatchBrace, Balanced, FindRange, KeepProperties, Braced;
    KeptBetweenBraces(s, key, n, keys, start, end, range, kept);
    KeptLinesEnd(s[range.from + 1..range.to - 1], n + 4, keys);
    LinesCloseIff(s[..range.from], kept, s[range.to..]);
  }

  lemma KeptBetweenBraces(
    s: string, key: string, n: nat, keys: seq<string>, start: nat, end: nat, range: Slice, kept: string)
    requires start <= end <= |s| && FindRange(s, key, n, start, end) == Some(range)
    requires range.from + 1 <= range.to - 1
    requires kept == KeptLines(s[range.from + 1..range.to - 1], n + 4, keys) && kept != ""
    ensures KeepProperties(s, key, n, keys, start, end) == Braced(s[..range.from], kept, s[range.to..])
  {
    hide KeptLines, MatchBrace, FindRange;
    BracesAround(s, range, kept);
  }

  lemma BracesAround(s: string, range: Slice, kept: string)
    requires range.from + 1 <= range.to - 1 < |s| && s[range.from] == '{' && s[range.to - 1] == '}'
    ensures s[..range.from + 1] + "\n" + kept + s[range.to - 1..] ==
            s[..range.from] + "{\n" + kept + "}" + s[range.to..]
  {
    assert s[..range.from + 1] == s[..range.from] + ['{'];
    assert s[range.to - 1..] == ['}'] + s[range.to..];
  }

  /** A found object has room for its braces. */
  lemma FoundHasBraces(s: string, key: string, n: nat, start: nat, end: nat)
    requires start <= end <= |s| && FindRange(s, key, n, start, end).Some?
    ensures var range := FindRange(s, key, n, start, end).value; range.from + 1 <= range.to - 1
  {
    hide FirstMatch, IndexOf;
  }

  // ---------- Printed documents ----------

  function FirstLine(t: string): string {
    var e := IndexOf(t, '\n', 0);
    if e == -1 then t else t[..e + 1]
  }

  /** What stands between the braces of a group. */
  function Inner(g: Doc, n: nat): string
    requires g.Group?
  {
    g.lead + Render(g.body, n + 4) + Spaces(g.pad)
  }

  /** The group does not end on its first line. */
  predicate Tall(item: Doc, n: nat) {
    item.Group? && '\n' in Inner(item, n)
  }

  /** What is kept of an item: a field whole, of a group the first line. */
  function KeptItem(item: Doc, n: nat): string {
    match item
    case Field(key, value, _) => FieldText(n, key, value)
    case Group(key, _, _, _, comma, _) =>
      GroupHead(n, key) + "{" + FirstLine(Inner(item, n) + "}" + GroupTail(comma))
    case _ => ""
  }

  function KeptItems(body: Doc, n: nat, keys: seq<string>): string {
    if keys == [] then "" else KeptItem(From(body, keys[0]), n) + KeptItems(body, n, keys[1..])
  }

  lemma KeptGroupLine(left: string, n: nat, key: string, rest: string, right: string)
    requires IsKey(key) && '\n' in rest
    requires FirstMatch(left + (GroupHead(n, key) + "{" + rest) + right, Pattern(n, key), 0) == |left|
    ensures KeptLine(left + (GroupHead(n, key) + "{" + rest) + right, Pattern(n, key), 0) ==
            GroupHead(n, key) + "{" + FirstLine(rest)
  {
    hide FirstMatch, Pattern, IsKey, IndexOf, KeptLine;
    var head, e := GroupHead(n, key) + "{", IndexOf(rest, '\n', 0);
    var content := left + (head + rest) + right;
    LineBreakBehind(left + head, rest, right);
    assert content == (left + head) + rest + right;
    KeptLineFrom(content, Pattern(n, key), |left|);
    SliceBehind(left, head, rest, right, e + 1);
  }

  /** When a brace follows the matched pattern and a space, the line is kept up to its end. */
  lemma KeptLineFrom(content: string, pattern: string, hit: nat)
    requires FirstMatch(content, pattern, 0) == hit && hit + |pattern| + 1 < |content|
    requires content[hit + |pattern|] == ' ' && content[hit + |pattern| + 1] == '{'
    requires IndexOf(content, '\n', hit + |pattern| + 2) != -1
    ensures KeptLine(content, pattern, 0) == content[hit..IndexOf(content, '\n', hit + |pattern| + 2) + 1]
  {
    hide FirstMatch, IndexOf, SkipSpace;
    var low := hit + |pattern|;
    SkipSpaceIs(content, low, |content|, low + 1);
    BraceNoBreak(content, low + 1);
  }

  lemma SliceBehind(left: string, head: string, rest: string, right: string, k: nat)
    requires k <= |rest|
    ensures (left + (head + rest) + right)[|left|..|left + head| + k] == head + rest[..k]
  {
  }

  /** The first line break behind a position is that of the text that begins there. */
  lemma LineBreakBehind(front: string, rest: string, right: string)
    requires '\n' in rest
    ensures IndexOf(rest, '\n', 0) >= 0
    ensures IndexOf(front + rest + right, '\n', |front|) == |front| + IndexOf(rest, '\n', 0)
  {
    hide IndexOf;
    var text, e := front + rest + right, IndexOf(rest, '\n', 0);
    IndexOfIsFirst(rest, '\n', 0);
    forall q | |front| <= q < |front| + e ensures text[q] != '\n' {
      assert text[q] == rest[q - |front|];
    }
    IndexOfIs(text, '\n', |front|, |front| + e);
  }

  lemma BraceNoBreak(text: string, at: nat)
    requires at < |text| && text[at] == '{'
    ensures IndexOf(text, '\n', at) == IndexOf(text, '\n', at + 1)
  {
  }

  /** The kept line of a key is the kept item of the first item with the key. */
  lemma KeptLineIsItem(lead: string, body: Doc, n: nat, pad: nat, key: string)
    requires WellFormed(body) && (body.End? || (lead != "" && EndsLine(lead)))
    requires IsKey(key) && Quiet(lead, Pattern(n, key)) && Shy(body, Pattern(n, key))
    ensures KeptLine(Content(lead, body, n, pad), Pattern(n, key), 0) == KeptItem(From(body, key), n)
  {
    hide FirstMatch, TextBefore, Shy, RestOfLine, Pattern, WellFormed, From, IsKey, Quiet, FieldText, KeptLine,
      GroupHead, FirstLine, Render, Spaces, GroupTail;
    FromKey(body, key);
    var item := From(body, key);
    if item.Group? {
      SpacesQuiet(pad, n, key);
      SearchInDocument(lead, body, n, Spaces(pad), key);
      RenderSplits(body, n, key);
      RenderGroup(item, n);
      var left, right := lead + TextBefore(body, n, key), Render(item.rest, n) + Spaces(pad);
      var rest := Inner(item, n) + "}" + GroupTail(item.comma);
      TailBreaks(Inner(item, n) + "}", item.comma);
      GroupInContent(lead, TextBefore(body, n, key), GroupHead(n, key), Inner(item, n), GroupTail(item.comma),
                     Render(item.rest, n), Spaces(pad));
      KeptGroupLine(left, n, key, rest, right);
    } else {
      KeptLineOf(lead, body, n, pad, key);
    }
  }

  lemma GroupInContent(
    lead: string, before: string, head: string, inner: string, tail: string, rest: string, close: string)
    ensures lead + (before + (head + "{" + inner + "}" + tail + rest)) + close ==
            (lead + before) + (head + "{" + (inner + "}" + tail)) + (rest + close)
  {
  }

  lemma TailBreaks(front: string, comma: bool)
    ensures '\n' in front + GroupTail(comma)
  {
    assert (front + GroupTail(comma))[|front| + |GroupTail(comma)| - 1] == '\n';
  }

  /** The keys are plain, and nothing but fields and groups looks like one of them. */
  ghost predicate Findable(lead: string, body: Doc, n: nat, keys: seq<string>) {
    forall i :: 0 <= i < |keys| ==>
      IsKey(keys[i]) && Quiet(lead, Pattern(n, keys[i])) && Shy(body, Pattern(n, keys[i]))
  }

  lemma {:induction false} KeptLinesAreItems(lead: string, body: Doc, n: nat, pad: nat, keys: seq<string>)
    requires WellFormed(body) && (body.End? || (lead != "" && EndsLine(lead)))
    requires Findable(lead, body, n, keys)
    ensures KeptLines(Content(lead, body, n, pad), n, keys) == KeptItems(body, n, keys)
    decreases |keys|
  {
    hide KeptLine, Content, WellFormed, Pattern, From, Quiet, Shy, KeptItem;
    if keys != [] {
      KeptLineIsItem(lead, body, n, pad, keys[0]);
      KeptLinesAreItems(lead, body, n, pad, keys[1..]);
    }
  }

  // ---------- Which kept items are balanced ----------

  /** The first line of a tall group leaves at least one brace open. */
  lemma TallStaysOpen(n: nat, key: string, inner: string, tail: string)
    requires IsKey(key) && Balanced(inner) && '\n' in inner
    ensures var state := Scan(GroupHead(n, key) + "{" + FirstLine(inner + tail), Code, 1);
            state.Running? && state.depth >= 2
  {
    hide Scan, IndexOf;
    var head, e := GroupHead(n, key), IndexOf(inner, '\n', 0);
    IndexOfIsFirst(inner, '\n', 0);
    assert forall q :: 0 <= q < |inner| ==> (inner + tail)[q] == inner[q];
    IndexOfIs(inner + tail, '\n', 0, e);
    var line := inner[..e + 1];
    assert (inner + tail)[..e + 1] == line;
    assert inner == line + inner[e + 1..];
    ScanConcat(line, inner[e + 1..], Code, 1);
    ScanLifted(line, Code, 1, 1);
    PatternShape(n, key);
    PlainRuns(head, 1);
    assert head + "{" + line == head + (['{'] + line);
    ScanConcat(head, ['{'] + line, Code, 1);
    ScanCons('{', line, Code, 1);
  }

  lemma FlatIsWhole(inner: string, comma: bool)
    requires '\n' !in inner
    ensures FirstLine(inner + "}" + GroupTail(comma)) == inner + "}" + GroupTail(comma)
  {
    hide IndexOf;
    var t := inner + "}" + GroupTail(comma);
    forall q | 0 <= q < |t| - 1 ensures t[q] != '\n' {
      if q < |inner| {
        assert t[q] == inner[q] && inner[q] in inner;
      }
    }
    IndexOfIs(t, '\n', 0, |t| - 1);
  }

  /** A kept item is balanced unless it is the first line of a tall group, which opens more than it closes. */
  lemma ItemScan(item: Doc, n: nat)
    requires WellFormed(item) && !item.Filler?
    ensures var state := Scan(KeptItem(item, n), Code, 1);
            && state.Running?
            && (if Tall(item, n) then state.depth >= 2 else state == Running(Code, 1))
  {
    hide Scan, Render, WellFormed, FirstLine, IsKey, GroupHead, GroupTail;
    match item
    case End =>
      ScanNothing();
    case Field(key, value, _) =>
      FieldParts(item);
      FieldBalanced(n, key, value);
    case Group(key, _, _, _, comma, _) =>
      GroupParts(item, n + 4);
      var inner := Inner(item, n);
      if '\n' in inner {
        assert inner + "}" + GroupTail(comma) == inner + ("}" + GroupTail(comma));
        TallStaysOpen(n, key, inner, "}" + GroupTail(comma));
      } else {
        FlatIsWhole(inner, comma);
        GroupBalanced(n, key, inner, comma);
        assert GroupHead(n, key) + "{" + (inner + "}" + GroupTail(comma)) ==
               GroupHead(n, key) + "{" + inner + "}" + GroupTail(comma);
      }
  }

  lemma ScanNothing()
    ensures Scan("", Code, 1) == Running(Code, 1)
  {
  }

  /** The first line of every tall group among the kept items ends in code. */
  ghost predicate HeadsInCode(body: Doc, n: nat, keys: seq<string>) {
    forall k :: k in keys && Tall(From(body, k), n) ==> HeadInCode(From(body, k), n)
  }

  predicate HeadInCode(item: Doc, n: nat) {
    var state := Scan(KeptItem(item, n), Code, 1);
    state.Running? && state.mode == Code
  }

  ghost predicate NoneTall(body: Doc, n: nat, keys: seq<string>) {
    forall k :: k in keys ==> !Tall(From(body, k), n)
  }

  lemma {:induction false} ItemsScan(body: Doc, n: nat, keys: seq<string>) returns (d: int)
    requires WellFormed(body) && HeadsInCode(body, n, keys)
    ensures Scan(KeptItems(body, n, keys), Code, 1) == Running(Code, d) && d >= 1
    ensures d == 1 <==> NoneTall(body, n, keys)
    decreases |keys|
  {
    hide Scan, KeptItem, WellFormed, From, Tall;
    if keys == [] {
      ScanNothing();
      d := 1;
    } else {
      assert keys == [keys[0]] + keys[1..] && keys[0] in keys;
      var item := From(body, keys[0]);
      FromKey(body, keys[0]);
      ItemScan(item, n);
      var rest := ItemsScan(body, n, keys[1..]);
      var first := Scan(KeptItem(item, n), Code, 1).depth;
      ScanConcat(KeptItem(item, n), KeptItems(body, n, keys[1..]), Code, 1);
      ScanLifted(KeptItems(body, n, keys[1..]), Code, 1, first - 1);
      d := rest + first - 1;
    }
  }

  lemma NoneTallBalanced(body: Doc, n: nat, keys: seq<string>)
    requires WellFormed(body)
    ensures NoneTall(body, n, keys) ==> Balanced(KeptItems(body, n, keys))
    ensures HeadsInCode(body, n, keys) ==> (Balanced(KeptItems(body, n, keys)) <==> NoneTall(body, n, keys))
  {
    hide Scan, KeptItem, KeptItems, WellFormed, From, Tall, HeadInCode;
    if HeadsInCode(body, n, keys) {
      var d := ItemsScan(body, n, keys);
    }
  }

  /**
    For every printed document: after listed properties of an object have been kept, the object closes right
    behind them exactly when the kept items are balanced. They are when none of them is a group of several lines,
    and, where the first lines of such groups end in code, only then.
   */
  lemma KeptDocumentClosesIff(f: File, path: Path, key: string, keys: seq<string>)
    requires WellFormedFile(f) && Sub(f, In(path, key)).Some? && ShyPath(f, In(path, key))
    requires var item, n := From(Sub(f, path).value, key), Level(path) + 4;
             && Findable(item.lead, item.body, n, keys)
             && KeptItems(item.body, n, keys) != ""
    ensures Locate(FileText(f), In(path, key)).Some? && Locate(FileText(f), path).Some?
    ensures var item, n := From(Sub(f, path).value, key), Level(path) + 4;
            var outer, range := Locate(FileText(f), path).value, Locate(FileText(f), In(path, key)).value;
            var text := KeepProperties(FileText(f), key, Level(path), keys, outer.from, outer.to);
            var closes := MatchBrace(text, range.from) == range.from + 2 + |KeptItems(item.body, n, keys)|;
            && (closes <==> Balanced(KeptItems(item.body, n, keys)))
            && (NoneTall(item.body, n, keys) ==> closes)
            && (HeadsInCode(item.body, n, keys) ==> (closes <==> NoneTall(item.body, n, keys)))
  {
    hide FindRange, Render, WellFormed, Shy, Quiet, Pattern, KeptLines, FileText, From, KeepProperties, FrameOf,
      Content, MatchBrace, Scan, KeptItems, KeepFields, NoneTall, HeadsInCode, Findable;
    var item, n := From(Sub(f, path).value, key), Level(path) + 4;
    FoundResolvable(f, In(path, key));
    LookupCommutes(f, path);
    LookupCommutes(f, In(path, key));
    var outer, range := Locate(FileText(f), path).value, Locate(FileText(f), In(path, key)).value;
    SubWellFormed(f, path);
    FromKey(Sub(f, path).value, key);
    GroupParts(item, n);
    KeptText(f, path, key, keys);
    KeptLinesAreItems(item.lead, item.body, n, item.pad, keys);
    FoundHasBraces(FileText(f), key, Level(path), outer.from, outer.to);
    KeptClosesIff(FileText(f), key, Level(path), keys, outer.from, outer.to, range, KeptItems(item.body, n, keys));
    NoneTallBalanced(item.body, n, keys);
  }

  // ---------- A kept group whose first line ends in a comment ----------

  const LEAD := "/*\n*/\n"
  const NOTED := "1 // */}"

  function TallAndNoted(): Doc {
    Group("a", LEAD, End, 0, false, Field("b", NOTED, End))
  }

  lemma {:induction false} BlockRuns(t: string, d: int)
    requires '*' !in t
    ensures Scan(t, Block, d) == Running(Block, d)
  {
    if t != "" {
      assert t[0] in t && forall c :: c in t[1..] ==> c in t;
      BlockRuns(t[1..], d);
    }
  }

  lemma BlockText(t: string, rest: string)
    ensures "/*" + t + "*/" + rest == ['/'] + (['*'] + (t + (['*'] + (['/'] + rest))))
  {
  }

  lemma BlockEnds(rest: string, d: int)
    ensures Scan(['*'] + (['/'] + rest), Block, d) == Scan(rest, Code, d).Delay(2)
  {
    hide Scan;
    ScanCons('*', ['/'] + rest, Block, d);
    ScanCons('/', rest, Star, d);
  }

  lemma BlockBegins(rest: string, d: int)
    ensures Scan(['/'] + (['*'] + rest), Code, d) == Scan(rest, Block, d).Delay(2)
  {
    hide Scan;
    ScanCons('*', rest, Slash, d);
    ScanCons('/', ['*'] + rest, Code, d);
  }

  lemma DelayTwice(o: Outcome, m: nat, n: nat)
    ensures o.Delay(m).Delay(n) == o.Delay(m + n)
  {
  }

  /** A block comment stands in front of other text. */
  lemma BlockScans(t: string, rest: string, d: int)
    requires '*' !in t
    ensures Scan("/*" + t + "*/" + rest, Code, d) == Scan(rest, Code, d).Delay(|t| + 4)
  {
    BlockText(t, rest);
    BlockRuns(t, d);
    BlockEnds(rest, d);
    var end := ['*'] + (['/'] + rest);
    BlockBegins(t + end, d);
    hide Scan, Outcome.Delay;
    ScanConcat(t, end, Block, d);
    DelayTwice(Scan(rest, Code, d), 2, |t|);
    DelayTwice(Scan(rest, Code, d), |t| + 2, 2);
  }

  lemma {:induction false} LineRuns(t: string, d: int)
    requires '\n' !in t
    ensures Scan(t, Line, d) == Running(Line, d)
  {
    if t != "" {
      assert t[0] in t && forall c :: c in t[1..] ==> c in t;
      LineRuns(t[1..], d);
    }
  }

  lemma NoteBalanced(t: string)
    requires '\n' !in t
    ensures Balanced("//" + t + "\n")
  {
    LineRuns(t, 1);
    ScanNothing();
    hide Scan;
    assert "//" + t + "\n" == ['/'] + (['/'] + (t + ['\n'])) && ['\n'] + "" == ['\n'];
    ScanCons('/', ['/'] + (t + ['\n']), Code, 1);
    ScanCons('/', t + ['\n'], Slash, 1);
    ScanConcat(t, ['\n'], Line, 1);
    ScanCons('\n', "", Line, 1);
  }

  lemma LeadBalanced()
    ensures Balanced(LEAD)
  {
    PlainRuns("\n", 1);
    BlockScans("\n", "\n", 1);
    hide Scan;
    assert LEAD == "/*" + "\n" + "*/" + "\n";
  }

  lemma NotedValueBalanced()
    ensures Balanced(NOTED + "\n")
  {
    PlainRuns("1 ", 1);
    NoteBalanced(" */}");
    BalancedConcat("1 ", "//" + " */}" + "\n");
    hide Balanced;
    assert NOTED + "\n" == "1 " + ("//" + " */}" + "\n");
  }

  lemma NotedWellFormed()
    ensures WellFormed(TallAndNoted())
  {
    LeadBalanced();
    NotedValueBalanced();
    hide Balanced;
  }

  lemma NotedItems()
    ensures KeptItems(TallAndNoted(), 0, ["a", "b"]) == "a: {/*\n" + "b: 1 // */}\n"
  {
    var d := TallAndNoted();
    KeptOfGroup();
    KeptOfField();
    hide KeptItem, FirstLine;
    assert From(d, "a") == d && From(d, "b") == d.rest;
    assert ["a", "b"][1..] == ["b"] && ["b"][1..] == [];
    assert KeptItems(d, 0, ["b"]) == KeptItem(d.rest, 0) + "";
  }

  lemma KeptOfGroup()
    ensures KeptItem(TallAndNoted(), 0) == "a: {/*\n"
  {
    var inner := LEAD + "" + "";
    assert Inner(TallAndNoted(), 0) == inner == LEAD;
    var t := inner + "}" + "\n";
    IndexOfIs(t, '\n', 0, 2);
    assert t[..3] == "/*\n";
    assert Pattern(0, "a") == "a:";
  }

  lemma KeptOfField()
    ensures KeptItem(TallAndNoted().rest, 0) == "b: 1 // */}\n"
  {
    assert Pattern(0, "b") == "b:";
  }

  lemma NotedText()
    ensures "a: {/*\n" + "b: 1 // */}\n" ==
            "a: " + (['{'] + ("/*" + "\nb: 1 // " + "*/" + (['}'] + "\n")))
  {
  }

  lemma OpenedBeforeBlock(head: string, t: string, tail: string)
    requires Plain(head) && '*' !in t && Plain(tail)
    ensures Balanced(head + (['{'] + ("/*" + t + "*/" + (['}'] + tail))))
  {
    PlainRuns(head, 1);
    PlainRuns(tail, 1);
    hide Scan;
    var behind := ['}'] + tail;
    var comment := "/*" + t + "*/" + behind;
    ScanConcat(head, ['{'] + comment, Code, 1);
    ScanCons('{', comment, Code, 1);
    BlockScans(t, behind, 2);
    ScanCons('}', tail, Code, 2);
  }

  lemma NotedBalanced()
    ensures Balanced("a: {/*\n" + "b: 1 // */}\n")
  {
    hide Balanced;
    NotedText();
    OpenedBeforeBlock("a: ", "\nb: 1 // ", "\n");
  }

  /** In a well-formed document the kept items can be balanced although one of them is a group of several lines. */
  lemma TallMayClose()
    ensures WellFormed(TallAndNoted()) && !NoneTall(TallAndNoted(), 0, ["a", "b"])
    ensures Balanced(KeptItems(TallAndNoted(), 0, ["a", "b"]))
  {
    NotedItems();
    NotedBalanced();
    NotedWellFormed();
    hide Balanced, KeptItems, WellFormed;
    var d := TallAndNoted();
    assert From(d, "a") == d && "a" in ["a", "b"];
    assert LEAD[2] == '\n';
  }

  // ---------- A kept object of two lines ----------

  const NESTED := "a: {\n    b: {\n    },\n}"
  const NESTED_CONTENT := "\n    b: {\n    },\n"

  lemma NestedBalanced()
    ensures Balanced(NESTED_CONTENT)
  {
    hide Balanced, Scan;
    var head, inner := "\n    b: ", "{" + "\n    " + "}";
    PlainBalanced(head);
    PlainBalanced("\n    ");
    PlainBalanced(",\n");
    BracesBalanced("\n    ");
    BalancedConcat(head, inner);
    BalancedConcat(head + inner, ",\n");
    assert NESTED_CONTENT == head + inner + ",\n";
  }

  lemma PlainBalanced(t: string)
    requires Plain(t)
    ensures Balanced(t)
  {
    PlainRuns(t, 1);
  }

  lemma NestedMatches()
    ensures MatchBrace(NESTED, 3) == 21
  {
    hide Balanced, Scan, MatchFrom;
    NestedBalanced();
    BracesClose(NESTED_CONTENT, "");
    assert NESTED[3..] == "{" + NESTED_CONTENT + "}" + "";
    MatchFromIsScan(NESTED, 3, Code, 0);
  }

  lemma NestedFound()
    ensures FindRange(NESTED, "a", 0, 0, 22) == Some(Slice(3, 22))
  {
    hide MatchBrace;
    var s, pattern := NESTED, Pattern(0, "a");
    assert pattern == "a:" && s[0..22] == s && s[0..2] == "a:";
    assert FirstMatch(s, pattern, 0) == 0;
    SkipSpaceIs(s, 2, 22, 3);
    NestedMatches();
  }

  lemma NestedFirst()
    ensures Pattern(4, "b") == "    b:" && FirstMatch(NESTED_CONTENT, Pattern(4, "b"), 0) == 1
  {
    var t, pattern := NESTED_CONTENT, Pattern(4, "b");
    assert Spaces(4) == "    " && pattern == "    b:";
    assert t[1..7] == pattern && t[0..6][0] == '\n';
    assert FirstMatch(t, pattern, 1) == 1;
  }

  lemma NestedKept()
    ensures KeptLines(NESTED_CONTENT, 4, ["b"]) == "    b: {\n"
  {
    hide Pattern, FirstMatch;
    var t, pattern := NESTED_CONTENT, Pattern(4, "b");
    NestedFirst();
    SkipSpaceIs(t, 7, |t|, 8);
    IndexOfIs(t, '\n', 8, 9);
    assert RestOfLine(t, 7, 8) == Some(10);
    assert t == "\n" + "    b: {\n" + "    },\n";
    assert t[1..10] == "    b: {\n";
    assert ["b"][1..] == [];
    assert KeptLines(t, 4, []) == "";
  }

  lemma NestedUnbalanced()
    ensures !Balanced("    b: {\n")
  {
    hide Scan;
    var head := "    b: ";
    PlainRuns(head, 1);
    PlainRuns("\n", 2);
    assert "    b: {\n" == head + (['{'] + "\n");
    ScanConcat(head, ['{'] + "\n", Code, 1);
    ScanCons('{', "\n", Code, 1);
  }

  /** Keeping a property whose value is an object of two lines leaves the object around it unclosed. */
  lemma KeptGroupLosesItsEnd()
    ensures KeepProperties(NESTED, "a", 0, ["b"], 0, 22) == "a: {\n    b: {\n}"
    ensures MatchBrace(KeepProperties(NESTED, "a", 0, ["b"], 0, 22), 3) == -1
  {
    hide FindRange, KeptLines, MatchBrace, Balanced;
    NestedFound();
    assert NESTED == "a: {" + NESTED_CONTENT + "}";
    assert NESTED[4..21] == NESTED_CONTENT;
    NestedKept();
    NestedUnbalanced();
    KeptClosesIff(NESTED, "a", 0, ["b"], 0, 22, Slice(3, 22), "    b: {\n");
    var text := "a: {\n    b: {\n}";
    assert NESTED[..4] + "\n" + "    b: {\n" + NESTED[21..] == text;
    assert forall q :: 0 <= q < 14 ==> text[q] != '}';
  }
}
