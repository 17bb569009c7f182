/**
  What the pruner's cuts do to the brace structure of an arbitrary text: matched braces nest, a cut
  between two code positions of equal depth moves every enclosing closing brace left by exactly the
  length of the cut, and the next lookup therefore finds the same object again.
 */
module BraceStructure {
  import opened Lexer
  import opened LocalePruner
  import opened TextSearch

  /** Position `p` is code, at depth `d` counted from the brace at `o`, and no closing brace of `o` precedes it. */
  ghost predicate InCodeAt(s: string, o: nat, p: nat, d: int) {
    o <= p <= |s| &&
    var before := Scan(s[o..p], Code, 0);
    before.Running? && InCode(before.mode) && before.depth == d
  }

  /** The same, and the character before `p` cannot begin a comment. */
  ghost predicate CleanAt(s: string, o: nat, p: nat, d: int) {
    o <= p <= |s| && Scan(s[o..p], Code, 0) == Running(Code, d)
  }

  lemma SliceOfSlice(s: string, a: nat, b: nat, c: nat, d: nat)
    requires a <= b <= |s| && c <= d <= b - a
    ensures s[a..b][c..d] == s[a + c..a + d]
  {
    forall i | 0 <= i < d - c
      ensures s[a..b][c..d][i] == s[a + c..a + d][i]
    {
      assert s[a..b][c..d][i] == s[a..b][c + i] == s[a + c + i];
    }
  }

  lemma WithoutPrefix(s: string, cut: Slice, a: nat, b: nat)
    requires a <= b <= cut.from <= cut.to <= |s|
    ensures Without(s, cut)[a..b] == s[a..b]
  {
  }

  lemma ScanSplit(s: string, o: nat, p: nat, m: Mode, d: int)
    requires o <= p <= |s|
    ensures Scan(s[o..], m, d) ==
            match Scan(s[o..p], m, d)
            case Closed(q) => Closed(q)
            case Running(m', d') => Scan(s[p..], m', d').Delay(p - o)
  {
    assert s[o..] == s[o..p] + s[p..];
    ScanConcat(s[o..p], s[p..], m, d);
  }

  lemma ScanExtend(s: string, o: nat, p: nat, q: nat, d: int)
    requires o <= p <= q <= |s|
    requires CleanAt(s, o, p, d)
    ensures Scan(s[o..q], Code, 0) == Scan(s[p..q], Code, d).Delay(p - o)
  {
    hide Scan;
    assert s[o..q] == s[o..p] + s[p..q];
    ScanConcat(s[o..p], s[p..q], Code, 0);
  }

  /** Only a slash leaves the scanner in doubt whether a comment begins. */
  lemma SlashEnds(t: string, d: int)
    requires t != "" && Scan(t, Code, 0) == Running(Slash, d)
    ensures t[|t| - 1] == '/'
  {
    var front, last := t[..|t| - 1], t[|t| - 1];
    assert t == front + [last];
    ScanConcat(front, [last], Code, 0);
    assert [last][1..] == "";
    assert forall m, e :: Scan([last], m, e) == Running(Slash, d) ==> last == '/';
  }

  lemma CleanUnlessSlash(s: string, o: nat, p: nat, d: int)
    requires InCodeAt(s, o, p, d) && o < p && s[p - 1] != '/'
    ensures CleanAt(s, o, p, d)
  {
    hide Scan;
    if Scan(s[o..p], Code, 0) == Running(Slash, d) {
      SlashEnds(s[o..p], d);
    }
  }

  lemma CleanIsCode(s: string, o: nat, p: nat, d: int)
    requires CleanAt(s, o, p, d)
    ensures InCodeAt(s, o, p, d)
  {
  }

  lemma FirstBraceStep(s: string, o: nat, p: nat)
    requires o < p <= |s| && s[o] == '{'
    ensures Scan(s[o..p], Code, 0) == Scan(s[o + 1..p], Code, 1).Delay(1)
  {
    assert s[o..p][1..] == s[o + 1..p];
  }

  lemma PositiveInside(s: string, o: nat, p: nat, d: int)
    requires o < p && InCodeAt(s, o, p, d) && s[o] == '{'
    ensures d >= 1
  {
    hide Scan;
    FirstBraceStep(s, o, p);
    ScanLifted(s[o + 1..p], Code, 1, 0);
  }

  /** Positions in an inner object are positions in the outer one, deeper by the depth of the inner brace. */
  lemma CleanNested(s: string, o: nat, v: nat, p: nat, e: int, d: int)
    requires o < v < p <= |s| && s[o] == '{' && s[v] == '{'
    requires InCodeAt(s, o, v, e) && CleanAt(s, v, p, d)
    ensures CleanAt(s, o, p, e + d)
  {
    hide Scan;
    PositiveInside(s, o, v, e);
    FirstBraceStep(s, v, p);
    ScanLifted(s[v + 1..p], Code, 1, e);
    BraceInCode(s, v, p, Scan(s[o..v], Code, 0).mode, e);
    assert s[o..p] == s[o..v] + s[v..p];
    ScanConcat(s[o..v], s[v..p], Code, 0);
  }

  /** An opening brace in code is a step to one level more, behind a slash too. */
  lemma BraceInCode(s: string, v: nat, p: nat, m: Mode, d: int)
    requires v < p <= |s| && s[v] == '{' && InCode(m) && d >= 0
    ensures Scan(s[v..p], m, d) == Scan(s[v + 1..p], Code, d + 1).Delay(1)
  {
    assert s[v..p][1..] == s[v + 1..p];
  }

  /** Matched pairs are laminar: a `{` in code inside a matched pair is itself matched strictly inside it. */
  lemma InnerBraceCloses(s: string, o: nat, v: nat, d: int)
    requires o < v < |s| && s[o] == '{' && s[v] == '{'
    requires InCodeAt(s, o, v, d) && v <= MatchBrace(s, o)
    ensures v < MatchBrace(s, v) < MatchBrace(s, o)
    ensures CleanAt(s, o, MatchBrace(s, v) + 1, d)
  {
    hide Scan, MatchFrom;
    var m := Scan(s[o..v], Code, 0).mode;
    PositiveInside(s, o, v, d);
    var k := InnerMatch(s, o, v, m, d);
    BraceInCode(s, v, k, m, d);
    assert s[o..k] == s[o..v] + s[v..k];
    ScanConcat(s[o..v], s[v..k], Code, 0);
  }

  /** The position `k` behind the match of an inner brace. */
  lemma InnerMatch(s: string, o: nat, v: nat, m: Mode, d: nat) returns (k: nat)
    requires o < v < |s| && s[v] == '{' && d >= 1 && InCode(m)
    requires Scan(s[o..v], Code, 0) == Running(m, d) && v <= MatchBrace(s, o)
    ensures v + 1 < k <= |s| && MatchBrace(s, v) == k - 1 && k <= MatchBrace(s, o)
    ensures Scan(s[v + 1..k], Code, d + 1) == Running(Code, d)
  {
    hide Scan, MatchFrom;
    MatchFromIsScan(s, o, Code, 0);
    ScanSplit(s, o, v, Code, 0);
    assert s[v..|s|] == s[v..] && s[v + 1..|s|] == s[v + 1..];
    BraceInCode(s, v, |s|, m, d);
    BraceInCode(s, v, |s|, Code, 0);
    MatchFromIsScan(s, v, Code, 0);
    InnerClosesFirst(s[v + 1..], d);
    var p := Scan(s[v + 1..], Code, 1).at;
    k := v + p + 2;
    assert s[v + 1..][..p + 1] == s[v + 1..k];
  }

  /** A cut between two code positions of equal depth only moves the closing brace. */
  lemma CutInsideBraces(s: string, o: nat, cut: Slice, d: int)
    requires o < cut.from <= cut.to <= MatchBrace(s, o)
    requires CleanAt(s, o, cut.from, d) && CleanAt(s, o, cut.to, d)
    ensures MatchBrace(Without(s, cut), o) == MatchBrace(s, o) - (cut.to - cut.from)
  {
    hide Scan, MatchFrom;
    MatchFromIsScan(s, o, Code, 0);
    ScanSplit(s, o, cut.to, Code, 0);
    CutScan(s, o, cut, d);
  }

  /** Behind a cut that begins in code, the search goes on in the rest as code at that depth. */
  lemma CutScan(s: string, o: nat, cut: Slice, d: int)
    requires o < cut.from <= cut.to <= |s| && CleanAt(s, o, cut.from, d)
    ensures match Scan(s[cut.to..], Code, d)
            case Closed(q) => MatchBrace(Without(s, cut), o) == cut.from + q
            case Running(_, _) => MatchBrace(Without(s, cut), o) == -1
  {
    hide Scan, MatchFrom;
    var s' := Without(s, cut);
    MatchFromIsScan(s', o, Code, 0);
    ScanSplit(s', o, cut.from, Code, 0);
    assert s'[o..cut.from] == s[o..cut.from];
    assert s'[cut.from..] == s[cut.to..];
  }

  // ---------- Removing one property ----------

  ghost predicate MatchedObject(s: string, range: Slice) {
    && range.from < range.to <= |s|
    && s[range.from] == '{'
    && MatchBrace(s, range.from) == range.to - 1
  }

  /** The property that the pruner would remove starts at `p` and its value at `v`. */
  ghost predicate Property(s: string, key: string, n: nat, range: Slice, p: nat, v: nat) {
    && range.from <= range.to <= |s|
    && FirstMatch(s[range.from..range.to], Pattern(n, key), 0) == p - range.from
    && p - range.from >= 0
    && v == ValueStart(s, Pattern(n, key), range.from, range.to, p - range.from)
  }

  lemma PatternPlain(n: nat, key: string)
    requires IsKey(key)
    ensures Pattern(n, key) != "" && Plain(Pattern(n, key))
  {
  }

  lemma PropertyText(s: string, key: string, n: nat, range: Slice, p: nat, v: nat)
    requires IsKey(key) && Property(s, key, n, range, p, v)
    ensures p + |Pattern(n, key)| <= v <= range.to
    ensures s[p..p + |Pattern(n, key)|] == Pattern(n, key)
    ensures p == range.from || IsLineTerminator(s[p - 1])
    ensures forall q :: p + |Pattern(n, key)| <= q < v ==> IsSpace(s[q])
  {
    hide FirstMatch, SkipSpace;
    var pattern := Pattern(n, key);
    FirstMatchIsLeftmost(s[range.from..range.to], pattern, 0);
    SkippedIsSpace(s, p + |pattern|, range.to);
    SliceOfSlice(s, range.from, range.to, p - range.from, p - range.from + |pattern|);
  }

  /** A property of a matched object begins behind the opening brace, and its value before the closing one. */
  lemma PropertyInside(s: string, key: string, n: nat, range: Slice, p: nat, v: nat)
    requires IsKey(key) && MatchedObject(s, range) && Property(s, key, n, range, p, v)
    ensures range.from < p && p + |Pattern(n, key)| <= v < range.to
    ensures s[p - 1] != '/'
  {
    hide FirstMatch, SkipSpace, MatchBrace;
    var pattern := Pattern(n, key);
    PropertyText(s, key, n, range, p, v);
    PatternPlain(n, key);
    assert s[p] == s[p..p + |pattern|][0] && pattern[0] in pattern;
    var last := p + |pattern| - 1;
    assert s[last] == s[p..p + |pattern|][|pattern| - 1] && pattern[|pattern| - 1] == ':';
  }

  lemma PropertyHead(s: string, key: string, n: nat, range: Slice, p: nat, v: nat, d: int)
    requires IsKey(key) && MatchedObject(s, range)
    requires Property(s, key, n, range, p, v)
    requires InCodeAt(s, range.from, p, d)
    ensures range.from < p < v < range.to
    ensures CleanAt(s, range.from, p, d) && CleanAt(s, range.from, v, d)
  {
    hide FirstMatch, SkipSpace, Scan, MatchBrace, Pattern;
    var pattern := Pattern(n, key);
    PatternPlain(n, key);
    PropertyText(s, key, n, range, p, v);
    PropertyInside(s, key, n, range, p, v);
    CleanUnlessSlash(s, range.from, p, d);
    var space := s[p + |pattern|..v];
    assert forall c :: c in space ==> IsSpace(c);
    assert s[p..v] == pattern + space;
    PlainRuns(s[p..v], d);
    ScanExtend(s, range.from, p, v, d);
  }

  /** An object value is always removed whole, together with its comma and line break, and nothing else moves. */
  lemma ObjectPropertyPruned(s: string, key: string, n: nat, range: Slice, p: nat, v: nat, d: int)
    requires IsKey(key) && MatchedObject(s, range)
    requires Property(s, key, n, range, p, v)
    requires InCodeAt(s, range.from, p, d)
    requires v < |s| && s[v] == '{'
    ensures v < MatchBrace(s, v) < range.to - 1
    ensures PropertyCut(s, key, n, range.from, range.to) == Slice(p, AfterObject(s, MatchBrace(s, v)))
    ensures range.from < p < v < AfterObject(s, MatchBrace(s, v)) < range.to
    ensures CleanAt(s, range.from, p, d) && CleanAt(s, range.from, AfterObject(s, MatchBrace(s, v)), d)
    ensures MatchBrace(RemoveProperty(s, key, n, range.from, range.to), range.from) ==
            range.to - 1 - (AfterObject(s, MatchBrace(s, v)) - p)
  {
    hide Pattern, FirstMatch, ValueLineEnd, SkipSpace, Scan, MatchBrace, PropertyCut;
    PropertyHead(s, key, n, range, p, v, d);
    CleanIsCode(s, range.from, v, d);
    InnerBraceCloses(s, range.from, v, d);
    ObjectCut(s, key, n, range, p, v);
    var q := MatchBrace(s, v);
    var e := AfterObject(s, q);
    PlainRuns(s[q + 1..e], d);
    ScanExtend(s, range.from, q + 1, e, d);
    CutInsideBraces(s, range.from, Slice(p, e), d);
  }

  lemma ObjectCut(s: string, key: string, n: nat, range: Slice, p: nat, v: nat)
    requires Property(s, key, n, range, p, v) && v < range.to && s[v] == '{'
    requires 0 <= MatchBrace(s, v) < range.to
    ensures PropertyCut(s, key, n, range.from, range.to) == Slice(p, AfterObject(s, MatchBrace(s, v)))
  {
    hide Pattern, FirstMatch, SkipSpace, MatchBrace, AfterObject, ValueStart;
    ValueNotSpace(s, Pattern(n, key), range.from, range.to, p - range.from);
  }

  lemma ScalarCut(s: string, key: string, n: nat, range: Slice, p: nat, v: nat)
    requires Property(s, key, n, range, p, v) && v < |s| && s[v] != '{'
    requires ValueLineEnd(s, v, range.to) < range.to
    ensures PropertyCut(s, key, n, range.from, range.to) == Slice(p, ValueLineEnd(s, v, range.to) + 1)
  {
    hide Pattern, FirstMatch, SkipSpace, ValueStart;
    ValueNotSpace(s, Pattern(n, key), range.from, range.to, p - range.from);
  }

  /**
    A value that is not an object is removed up to the end of its line.  When that line ends before the closing
    brace, the structure survives exactly when the text behind it, read as code at the depth of the property,
    first closes at that brace.
   */
  lemma ScalarCutKeepsIff(s: string, key: string, n: nat, range: Slice, p: nat, v: nat, d: int)
    requires IsKey(key) && MatchedObject(s, range)
    requires Property(s, key, n, range, p, v)
    requires InCodeAt(s, range.from, p, d)
    requires v < |s| && s[v] != '{'
    requires ValueLineEnd(s, v, range.to) < range.to - 1
    ensures var e := ValueLineEnd(s, v, range.to) + 1;
            && PropertyCut(s, key, n, range.from, range.to) == Slice(p, e)
            && (MatchBrace(RemoveProperty(s, key, n, range.from, range.to), range.from) == range.to - 1 - (e - p) <==>
                Scan(s[e..], Code, d) == Closed(range.to - 1 - e))
  {
    hide Pattern, FirstMatch, SkipSpace, Scan, MatchBrace, PropertyCut, ValueLineEnd;
    PropertyHead(s, key, n, range, p, v, d);
    ScalarCut(s, key, n, range, p, v);
    CutScan(s, range.from, Slice(p, ValueLineEnd(s, v, range.to) + 1), d);
  }

  /** When moreover the line ends in code, the structure survives exactly when the line is brace-neutral. */
  lemma ScalarPropertyPruned(s: string, key: string, n: nat, range: Slice, p: nat, v: nat, d: int, d': int)
    requires IsKey(key) && MatchedObject(s, range)
    requires Property(s, key, n, range, p, v)
    requires InCodeAt(s, range.from, p, d)
    requires v < |s| && s[v] != '{'
    requires ValueLineEnd(s, v, range.to) < range.to - 1
    requires CleanAt(s, range.from, ValueLineEnd(s, v, range.to) + 1, d')
    ensures PropertyCut(s, key, n, range.from, range.to) == Slice(p, ValueLineEnd(s, v, range.to) + 1)
    ensures d' == d <==>
            MatchBrace(RemoveProperty(s, key, n, range.from, range.to), range.from) ==
            range.to - 1 - (ValueLineEnd(s, v, range.to) + 1 - p)
  {
    hide Pattern, FirstMatch, SkipSpace, Scan, PropertyCut, ValueLineEnd, MatchFrom, RemoveProperty;
    ScalarCutKeepsIff(s, key, n, range, p, v, d);
    var e := ValueLineEnd(s, v, range.to) + 1;
    MatchFromIsScan(s, range.from, Code, 0);
    ScanSplit(s, range.from, e, Code, 0);
    if Scan(s[e..], Code, d) == Scan(s[e..], Code, d') {
      ClosePositionFixesDepth(s[e..], Code, d, d');
    }
  }

  /**
    The removal of a key from an object meets no such property, or one that begins in code and whose value is an
    object or ends its line in code, before the closing brace, at the depth of the property.
   */
  ghost predicate ProperStep(s: string, key: string, n: nat, range: Slice)
    requires range.from <= range.to <= |s|
  {
    var hit := FirstMatch(s[range.from..range.to], Pattern(n, key), 0);
    hit >= 0 ==>
      var p := range.from + hit;
      var v := ValueStart(s, Pattern(n, key), range.from, range.to, hit);
      exists d :: ProperValue(s, range, p, v, d)
  }

  ghost predicate ProperValue(s: string, range: Slice, p: nat, v: nat, d: int)
    requires range.from <= range.to <= |s| && v <= range.to
  {
    && InCodeAt(s, range.from, p, d)
    && v < |s|
    && (s[v] == '{' ||
        (ValueLineEnd(s, v, range.to) < range.to - 1 && CleanAt(s, range.from, ValueLineEnd(s, v, range.to) + 1, d)))
  }

  /** Such a removal cuts nothing, or between two code positions of equal depth inside the braces. */
  lemma ProperStepNeutral(s: string, key: string, n: nat, range: Slice)
    requires IsKey(key) && MatchedObject(s, range) && ProperStep(s, key, n, range)
    ensures var cut := PropertyCut(s, key, n, range.from, range.to);
            cut.from == cut.to || NeutralIn(s, range, cut)
  {
    hide Pattern, FirstMatch, SkipSpace, MatchBrace, ValueLineEnd, InCodeAt, CleanAt, ValueStart, PropertyCut;
    var hit := FirstMatch(s[range.from..range.to], Pattern(n, key), 0);
    if hit == -1 {
      NothingToCut(s, key, n, range);
    } else {
      var p := range.from + hit;
      var v := ValueStart(s, Pattern(n, key), range.from, range.to, hit);
      var d :| ProperValue(s, range, p, v, d);
      PropertyHead(s, key, n, range, p, v, d);
      if s[v] == '{' {
        ObjectPropertyPruned(s, key, n, range, p, v, d);
      } else {
        ScalarCut(s, key, n, range, p, v);
      }
    }
  }

  lemma NothingToCut(s: string, key: string, n: nat, range: Slice)
    requires range.from <= range.to <= |s|
    requires FirstMatch(s[range.from..range.to], Pattern(n, key), 0) == -1
    ensures PropertyCut(s, key, n, range.from, range.to) == Slice(0, 0)
  {
  }

  // ---------- Looking up again ----------

  lemma MatchesAtStable(t: string, t': string, k: nat, q: nat, pattern: string)
    requires k <= |t| && k <= |t'| && t[..k] == t'[..k]
    requires q + |pattern| <= k
    ensures MatchesAt(t', q, pattern) == MatchesAt(t, q, pattern)
  {
    SliceOfSlice(t, 0, k, q, q + |pattern|);
    SliceOfSlice(t', 0, k, q, q + |pattern|);
    assert q > 0 ==> t[q - 1] == t[..k][q - 1] == t'[..k][q - 1] == t'[q - 1];
  }

  lemma FirstMatchStable(t: string, t': string, k: nat, pattern: string)
    requires k <= |t| && k <= |t'| && t[..k] == t'[..k]
    requires FirstMatch(t, pattern, 0) != -1 && FirstMatch(t, pattern, 0) + |pattern| <= k
    ensures FirstMatch(t', pattern, 0) == FirstMatch(t, pattern, 0)
  {
    hide FirstMatch, MatchesAt;
    FirstMatchIsLeftmost(t, pattern, 0);
    FirstMatchIsLeftmost(t', pattern, 0);
    forall q | 0 <= q <= FirstMatch(t, pattern, 0)
      ensures MatchesAt(t', q, pattern) == MatchesAt(t, q, pattern)
    {
      MatchesAtStable(t, t', k, q, pattern);
    }
  }

  /** A cut behind the opening brace leaves the search for that brace as it was. */
  lemma SameBraceFound(s: string, key: string, n: nat, outer: Slice, cut: Slice, hit: nat, v: nat, open: nat)
    requires outer.from <= outer.to <= |s|
    requires hit == FirstMatch(s[outer.from..outer.to], Pattern(n, key), 0)
    requires v == ValueStart(s, Pattern(n, key), outer.from, outer.to, hit)
    requires open == IndexOf(s, '{', v)
    requires v <= open < cut.from <= cut.to <= outer.to
    ensures var s', end' := Without(s, cut), outer.to - (cut.to - cut.from);
            && hit == FirstMatch(s'[outer.from..end'], Pattern(n, key), 0)
            && v == ValueStart(s', Pattern(n, key), outer.from, end', hit)
            && open == IndexOf(s', '{', v)
  {
    hide FirstMatch, IndexOf, SkipSpace, Pattern;
    var s', end' := Without(s, cut), outer.to - (cut.to - cut.from);
    var pattern := Pattern(n, key);
    var k := cut.from - outer.from;
    SliceOfSlice(s, outer.from, outer.to, 0, k);
    SliceOfSlice(s', outer.from, end', 0, k);
    WithoutPrefix(s, cut, outer.from, cut.from);
    FirstMatchStable(s[outer.from..outer.to], s'[outer.from..end'], k, pattern);
    assert forall q :: 0 <= q < cut.from ==> s'[q] == s[q];
    SkippedIsSpace(s, outer.from + hit + |pattern|, outer.to);
    SkipSpaceIs(s', outer.from + hit + |pattern|, end', v);
    IndexOfIsFirst(s, '{', v);
    IndexOfIs(s', '{', v, open);
  }

  /** After a neutral cut inside it, an object is found at the same place, shorter by the cut. */
  lemma FoundAgain(s: string, key: string, n: nat, outer: Slice, inner: Slice, cut: Slice, d: int)
    requires outer.from <= outer.to <= |s|
    requires FindRange(s, key, n, outer.from, outer.to) == Some(inner)
    requires inner.from < cut.from <= cut.to < inner.to
    requires CleanAt(s, inner.from, cut.from, d) && CleanAt(s, inner.from, cut.to, d)
    ensures FindRange(Without(s, cut), key, n, outer.from, outer.to - (cut.to - cut.from)) ==
            Some(Slice(inner.from, inner.to - (cut.to - cut.from)))
  {
    hide FirstMatch, IndexOf, ValueStart, CleanAt, MatchBrace, Pattern;
    var hit := FirstMatch(s[outer.from..outer.to], Pattern(n, key), 0);
    var v := ValueStart(s, Pattern(n, key), outer.from, outer.to, hit);
    SameBraceFound(s, key, n, outer, cut, hit, v, inner.from);
    CutInsideBraces(s, inner.from, cut, d);
  }

  /** The cut lies inside every object on the path, between code positions of equal depth. */
  ghost predicate NeutralCut(s: string, path: Path, cut: Slice) {
    match path
    case Root => cut.from <= cut.to <= |s|
    case In(outer, _) =>
      && NeutralCut(s, outer, cut)
      && Locate(s, path).Some?
      && NeutralIn(s, Locate(s, path).value, cut)
  }

  ghost predicate NeutralIn(s: string, range: Slice, cut: Slice) {
    && range.from < cut.from <= cut.to < range.to
    && exists d :: CleanAt(s, range.from, cut.from, d) && CleanAt(s, range.from, cut.to, d)
  }

  lemma {:induction false} LocatedAgain(s: string, path: Path, cut: Slice)
    requires NeutralCut(s, path, cut)
    ensures cut.from <= cut.to <= |s|
    ensures Locate(s, path).Some?
    ensures var range := Locate(s, path).value;
            && cut.to - cut.from <= range.to
            && Locate(Without(s, cut), path) == Some(Slice(range.from, range.to - (cut.to - cut.from)))
  {
    hide FindRange, CleanAt;
    match path
    case Root =>
    case In(outer, key) =>
      LocatedAgain(s, outer, cut);
      var outerRange, range := Locate(s, outer).value, Locate(s, path).value;
      var d :| CleanAt(s, range.from, cut.from, d) && CleanAt(s, range.from, cut.to, d);
      FoundAgain(s, key, 4 * path.Depth(), outerRange, range, cut, d);
  }

  function NextCut(s: string, path: Path, key: string): Slice
    requires Locate(s, path).Some?
  {
    var range := Locate(s, path).value;
    PropertyCut(s, key, 4 * path.Depth() + 4, range.from, range.to)
  }

  /** On the way to an object every opening brace is code inside the object before. */
  ghost predicate Nested(s: string, path: Path) {
    match path
    case Root => true
    case In(outer, _) =>
      outer.In? ==>
        && Nested(s, outer) && Locate(s, path).Some?
        && BraceNested(s, Locate(s, outer).value.from, Locate(s, path).value.from)
  }

  ghost predicate BraceNested(s: string, o: nat, v: nat) {
    exists e :: InCodeAt(s, o, v, e)
  }

  lemma LocatedInside(s: string, path: Path)
    requires path.In? && path.outer.In? && Locate(s, path).Some?
    ensures Locate(s, path.outer).Some?
    ensures var range, inner := Locate(s, path.outer).value, Locate(s, path).value;
            MatchedObject(s, range) && MatchedObject(s, inner) && range.from <= inner.from && inner.to <= range.to
  {
    hide MatchBrace, FirstMatch;
  }

  /** A neutral cut in the innermost object is neutral in every object around it. */
  lemma {:induction false} NeutralAround(s: string, path: Path, cut: Slice)
    requires path.In? && Locate(s, path).Some? && Nested(s, path)
    requires NeutralIn(s, Locate(s, path).value, cut)
    ensures NeutralCut(s, path, cut)
  {
    hide InCodeAt, CleanAt, FindRange, MatchBrace;
    match path
    case In(outer, _) =>
      if outer.In? {
        LocatedInside(s, path);
        var range, inner := Locate(s, outer).value, Locate(s, path).value;
        NeutralWider(s, range, inner, cut);
        NeutralAround(s, outer, cut);
      }
  }

  lemma NeutralWider(s: string, range: Slice, inner: Slice, cut: Slice)
    requires MatchedObject(s, range) && MatchedObject(s, inner)
    requires range.from <= inner.from && inner.to <= range.to
    requires BraceNested(s, range.from, inner.from) && NeutralIn(s, inner, cut)
    ensures NeutralIn(s, range, cut)
  {
    hide InCodeAt, CleanAt, MatchBrace;
    var d :| CleanAt(s, inner.from, cut.from, d) && CleanAt(s, inner.from, cut.to, d);
    if range.from < inner.from {
      var e :| InCodeAt(s, range.from, inner.from, e);
      CleanNested(s, range.from, inner.from, cut.from, e, d);
      CleanNested(s, range.from, inner.from, cut.to, e, d);
    }
  }

  lemma {:induction false} NestedAgain(s: string, path: Path, cut: Slice)
    requires Nested(s, path) && NeutralCut(s, path, cut)
    ensures cut.from <= cut.to <= |s|
    ensures Nested(Without(s, cut), path)
  {
    hide FindRange, InCodeAt, CleanAt;
    match path
    case Root =>
    case In(outer, _) =>
      NestedAgain(s, outer, cut);
      LocatedAgain(s, path, cut);
      if outer.In? {
        LocatedAgain(s, outer, cut);
        LocatedInside(s, path);
        BraceNestedAgain(s, Locate(s, outer).value.from, Locate(s, path).value.from, cut);
      }
  }

  lemma BraceNestedAgain(s: string, o: nat, v: nat, cut: Slice)
    requires BraceNested(s, o, v) && v < cut.from <= cut.to <= |s|
    ensures BraceNested(Without(s, cut), o, v)
  {
    hide Scan;
    var e :| InCodeAt(s, o, v, e);
    WithoutPrefix(s, cut, o, v);
    assert InCodeAt(Without(s, cut), o, v, e);
  }

  /** Every removal of the loop is proper in the text that it meets. */
  ghost predicate ProperRun(s: string, path: Path, keys: seq<string>)
    decreases |keys|
  {
    keys != [] && Locate(s, path).Some? ==>
      && IsKey(keys[0])
      && ProperStep(s, keys[0], 4 * path.Depth() + 4, Locate(s, path).value)
      && ProperRun(Without(s, NextCut(s, path, keys[0])), path, keys[1..])
  }

  /** The second text is the first with something inside the object's braces gone. */
  ghost predicate ShrunkInside(s: string, s': string, range: Slice) {
    && range.from < range.to <= |s|
    && |s'| <= |s|
    && |s| - |s'| < range.to - range.from
    && s'[..range.from + 1] == s[..range.from + 1]
    && s'[range.to - (|s| - |s'|) - 1..] == s[range.to - 1..]
  }

  lemma NeutralInside(s: string, range: Slice, cut: Slice)
    requires NeutralIn(s, range, cut)
    ensures range.from < cut.from <= cut.to < range.to
  {
  }

  lemma LocatedObject(s: string, path: Path)
    requires path.In? && Locate(s, path).Some?
    ensures MatchedObject(s, Locate(s, path).value)
  {
  }

  lemma NothingShrunk(s: string, range: Slice)
    requires range.from < range.to <= |s|
    ensures ShrunkInside(s, s, range)
  {
  }

  lemma CutShrinks(s: string, range: Slice, cut: Slice)
    requires range.from < cut.from <= cut.to < range.to <= |s|
    ensures ShrunkInside(s, Without(s, cut), range)
  {
  }

  lemma ShrunkTwice(s: string, s1: string, s2: string, range: Slice)
    requires ShrunkInside(s, s1, range)
    requires ShrunkInside(s1, s2, Slice(range.from, range.to - (|s| - |s1|)))
    ensures ShrunkInside(s, s2, range)
  {
    assert s2[range.to - (|s| - |s2|) - 1..] == s1[range.to - (|s| - |s1|) - 1..] == s[range.to - 1..];
  }

  /** A proper removal leaves the objects on the path nested, and finds the innermost one again. */
  lemma ProperStepKeeps(s: string, path: Path, key: string)
    requires path.In? && Locate(s, path).Some? && Nested(s, path)
    requires IsKey(key) && ProperStep(s, key, 4 * path.Depth() + 4, Locate(s, path).value)
    ensures var range, cut := Locate(s, path).value, NextCut(s, path, key);
            && ShrunkInside(s, Without(s, cut), range)
            && Nested(Without(s, cut), path)
            && Locate(Without(s, cut), path) == Some(Slice(range.from, range.to - (|s| - |Without(s, cut)|)))
  {
    hide PropertyCut, Locate, ShrunkInside, ProperStep, NeutralCut, Nested, NeutralIn;
    var range, cut := Locate(s, path).value, NextCut(s, path, key);
    LocatedObject(s, path);
    ProperStepNeutral(s, key, 4 * path.Depth() + 4, range);
    if cut.from == cut.to {
      assert Without(s, cut) == s;
      NothingShrunk(s, range);
    } else {
      NeutralAround(s, path, cut);
      NestedAgain(s, path, cut);
      LocatedAgain(s, path, cut);
      NeutralInside(s, range, cut);
      CutShrinks(s, range, cut);
    }
  }

  /**
    Over a whole loop of removals, for every text: when the objects on the path are nested in code and every
    removal is proper, each lookup finds the same object again, the loop never stops early, and everything
    outside the object's braces stays as it was.
   */
  lemma {:induction false} LoopKeepsObject(s: string, path: Path, keys: seq<string>)
    requires path.In? && Locate(s, path).Some? && Nested(s, path) && ProperRun(s, path, keys)
    ensures RemoveEach(s, path, keys).Finished?
    ensures ShrunkInside(s, RemoveEach(s, path, keys).text, Locate(s, path).value)
    ensures Locate(RemoveEach(s, path, keys).text, path) ==
            Some(Slice(Locate(s, path).value.from,
                       Locate(s, path).value.to - (|s| - |RemoveEach(s, path, keys).text|)))
    decreases |keys|
  {
    hide PropertyCut, Locate, ShrunkInside, ProperStep, Nested;
    var range := Locate(s, path).value;
    LocatedObject(s, path);
    if keys == [] {
      NothingShrunk(s, range);
    } else {
      var s1 := Without(s, NextCut(s, path, keys[0]));
      ProperStepKeeps(s, path, keys[0]);
      LoopKeepsObject(s1, path, keys[1..]);
      ShrunkTwice(s, s1, RemoveEach(s1, path, keys[1..]).text, range);
    }
  }
}
