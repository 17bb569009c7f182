/**
  What the pruner's small text functions mean: how much an object's removal takes behind its closing brace, and what
  its regular expression for a kept line matches.
 */
module PrunerText {
  import opened LocalePruner
  import opened TextSearch

  // ---------- Behind a removed object ----------

  /** A comma or none, and a line break of either kind or none. */
  predicate IsTrailer(t: string) {
    t == "" || t == "," || t == "\n" || t == ",\n" || t == "\r\n" || t == ",\r\n"
  }

  /** A removal takes, behind the closing brace, the longest text that is a comma or none and a line break or none. */
  lemma TrailerTaken(source: string, objectEnd: nat, t: string)
    requires objectEnd < |source|
    ensures var tail, e := source[objectEnd + 1..], AfterObject(source, objectEnd);
            && IsTrailer(source[objectEnd + 1..e])
            && (IsTrailer(t) && t <= tail ==> t <= source[objectEnd + 1..e])
  {
    var tail := source[objectEnd + 1..];
    var taken := AfterObject(source, objectEnd) - (objectEnd + 1);
    assert tail[..taken] == source[objectEnd + 1..AfterObject(source, objectEnd)];
    assert forall k :: 0 <= k < |tail| ==> tail[k] == source[objectEnd + 1 + k];
    TakenIs(tail, taken);
    if IsTrailer(t) && t <= tail {
      assert forall k :: 0 <= k < |t| ==> t[k] == tail[k];
      assert t == tail[..|t|];
    }
  }

  /** The length of what is taken, in terms of the first characters of the text behind the brace. */
  lemma TakenIs(tail: string, taken: nat)
    requires taken <= |tail|
    requires var comma := if |tail| > 0 && tail[0] == ',' then 1 else 0;
             taken == comma +
               if comma + 1 < |tail| && tail[comma] == '\r' && tail[comma + 1] == '\n' then 2
               else if comma < |tail| && tail[comma] == '\n' then 1
               else 0
    ensures IsTrailer(tail[..taken])
    ensures forall n :: 0 <= n <= |tail| && IsTrailer(tail[..n]) ==> n <= taken
  {
    assert taken == 0 ==> tail[..taken] == "";
    assert taken == 1 ==> tail[..taken] == [tail[0]];
    assert taken == 2 ==> tail[..taken] == [tail[0], tail[1]];
    assert taken == 3 ==> tail[..taken] == [tail[0], tail[1], tail[2]];
    forall n | 0 <= n <= |tail| && IsTrailer(tail[..n])
      ensures n <= taken
    {
      var t := tail[..n];
      assert forall k :: 0 <= k < n ==> t[k] == tail[k];
    }
  }

  // ---------- Removing a property ----------

  /** The head of the property stands first at `p` in the range, at the start of a line of it. */
  ghost predicate HeadFirst(source: string, pattern: string, start: nat, end: nat, p: nat)
    requires start <= end <= |source|
  {
    && start <= p && MatchesAt(source[start..end], p - start, pattern)
    && forall q: nat :: q < p - start ==> !MatchesAt(source[start..end], q, pattern)
  }

  /** White space from `from` up to `v`, and none at `v` before the end of the range. */
  predicate SpaceUpTo(source: string, from: nat, end: nat, v: nat) {
    && from <= v <= end <= |source|
    && (forall k :: from <= k < v ==> IsSpace(source[k])) && (v < end ==> !IsSpace(source[v]))
  }

  /** The first line break from `v` on, or the end of the range. */
  predicate LineUpTo(source: string, v: nat, end: nat, e: nat) {
    && v <= e <= end <= |source|
    && (forall k :: v <= k < e ==> source[k] != '\n') && (e < end ==> source[e] == '\n')
  }

  lemma LineEndIs(source: string, v: nat, end: nat, e: nat)
    requires LineUpTo(source, v, end, e)
    ensures ValueLineEnd(source, v, end) == e
  {
    IndexOfIsFirst(source, '\n', v);
    if e < end {
      IndexOfIs(source, '\n', v, e);
    }
  }

  /**
    What a removal deletes from any text. A value that is an object matched in the range goes, with its head and a
    trailer; an object that is not leaves everything as it is; any other value goes to the end of its line. Nothing
    is deleted without a head.
   */
  lemma CutIs(source: string, key: string, n: nat, start: nat, end: nat, p: nat, v: nat, e: nat)
    requires start <= end <= |source| && HeadFirst(source, Pattern(n, key), start, end, p)
    requires SpaceUpTo(source, p + |Pattern(n, key)|, end, v) && LineUpTo(source, v, end, e)
    ensures PropertyCut(source, key, n, start, end) ==
            if v < |source| && source[v] == '{' then
              if start <= v < MatchBrace(source, v) < end then Slice(p, AfterObject(source, MatchBrace(source, v)))
              else Slice(0, 0)
            else Slice(p, if e < |source| then e + 1 else e)
  {
    CutParts(source, Pattern(n, key), start, end, p, v, e);
    hide MatchBrace, AfterObject, SkipSpace, ValueStart, FirstMatch, ValueLineEnd, HeadFirst, SpaceUpTo, LineUpTo,
      Pattern;
    if v < |source| && source[v] == '{' {
      BraceNotItsMatch(source, v);
    }
  }

  lemma CutParts(source: string, pattern: string, start: nat, end: nat, p: nat, v: nat, e: nat)
    requires start <= end <= |source| && HeadFirst(source, pattern, start, end, p)
    requires SpaceUpTo(source, p + |pattern|, end, v) && LineUpTo(source, v, end, e)
    ensures FirstMatch(source[start..end], pattern, 0) == p - start
    ensures p - start + |pattern| <= end - start && start <= v <= e <= |source|
    ensures ValueStart(source, pattern, start, end, p - start) == v && ValueLineEnd(source, v, end) == e
    ensures SkipSpace(source, v, e) == v
  {
    LeftmostIs(source[start..end], pattern, p - start);
    hide FirstMatch, MatchesAt;
    SkipSpaceIs(source, p + |pattern|, end, v);
    LineEndIs(source, v, end, e);
    ValueNotSpace(source, pattern, start, end, p - start);
  }

  lemma LeftmostIs(t: string, pattern: string, p: nat)
    requires MatchesAt(t, p, pattern) && forall q: nat :: q < p ==> !MatchesAt(t, q, pattern)
    ensures FirstMatch(t, pattern, 0) == p
  {
    FirstMatchIsLeftmost(t, pattern, 0);
  }

  lemma BraceNotItsMatch(source: string, v: nat)
    requires v < |source| && source[v] == '{'
    ensures MatchBrace(source, v) != v
  {
  }

  lemma NothingWithoutHead(source: string, key: string, n: nat, start: nat, end: nat)
    requires start <= end <= |source| && forall p: nat :: !HeadFirst(source, Pattern(n, key), start, end, p)
    ensures RemoveProperty(source, key, n, start, end) == source
  {
    hide Pattern;
    var segment, pattern := source[start..end], Pattern(n, key);
    FirstMatchIsLeftmost(segment, pattern, 0);
    var hit := FirstMatch(segment, pattern, 0);
    assert hit >= 0 ==> HeadFirst(source, pattern, start, end, start + hit);
  }

  // ---------- The regular expression for a kept line ----------

  /** The rest of a line with at least one character, from `m` to just behind its line break at `q - 1`. */
  predicate LineFrom(content: string, m: int, q: int) {
    && 0 <= m < q - 1 < |content| && content[q - 1] == '\n'
    && forall k :: m <= k < q - 1 ==> content[k] != '\n'
  }

  /** `key:` at the start of a line at `p`, white space up to `m`, and from there the rest of a line up to `q`. */
  predicate KeptAt(content: string, pattern: string, p: nat, m: int, q: int) {
    && MatchesAt(content, p, pattern)
    && p + |pattern| <= m && LineFrom(content, m, q)
    && forall k :: p + |pattern| <= k < m ==> IsSpace(content[k])
  }

  lemma IndexOfFound(content: string, m: nat)
    requires m < |content| && content[m] != '\n'
    ensures var q := IndexOf(content, '\n', m);
            if q == -1 then forall r :: !LineFrom(content, m, r) else LineFrom(content, m, q + 1)
    ensures forall r :: LineFrom(content, m, r) ==> r == IndexOf(content, '\n', m) + 1
  {
    IndexOfIsFirst(content, '\n', m);
    forall r | LineFrom(content, m, r) ensures r == IndexOf(content, '\n', m) + 1 {
      IndexOfIs(content, '\n', m, r - 1);
    }
  }

  /** The last place up to `e` from which a line can be read, and where it ends. */
  ghost predicate LastStart(content: string, low: nat, e: nat, m: int, q: int) {
    low <= m <= e && LineFrom(content, m, q) && forall n, r :: m < n <= e ==> !LineFrom(content, n, r)
  }

  lemma {:induction false} RestOfLineIs(content: string, low: nat, e: nat)
    requires low <= e <= |content|
    ensures match RestOfLine(content, low, e)
            case None => forall m, q :: low <= m <= e ==> !LineFrom(content, m, q)
            case Some(q) => exists m :: LastStart(content, low, e, m, q)
    decreases e
  {
    if e < |content| && content[e] != '\n' {
      IndexOfFound(content, e);
    }
    if !(e < |content| && content[e] != '\n' && IndexOf(content, '\n', e) != -1) {
      assert forall q :: !LineFrom(content, e, q);
      if e > low {
        RestOfLineIs(content, low, e - 1);
        var before := RestOfLine(content, low, e - 1);
        assert RestOfLine(content, low, e) == before;
        if before.Some? {
          var m :| LastStart(content, low, e - 1, m, before.value);
          assert LastStart(content, low, e, m, before.value);
        }
      }
    } else {
      var q := IndexOf(content, '\n', e) + 1;
      assert RestOfLine(content, low, e) == Some(q);
      assert LastStart(content, low, e, e, q);
    }
  }

  /** The match at `p` with as much white space as possible in front of the rest of the line. */
  ghost predicate KeptGreedily(content: string, pattern: string, p: nat, m: int, q: int) {
    && KeptAt(content, pattern, p, m, q)
    && forall n, r :: m < n ==> !KeptAt(content, pattern, p, n, r)
  }

  /** What is found behind one occurrence of the pattern. */
  lemma BehindPattern(content: string, pattern: string, p: nat)
    requires MatchesAt(content, p, pattern)
    ensures var low := p + |pattern|;
            match RestOfLine(content, low, SkipSpace(content, low, |content|))
            case None => forall m, q :: !KeptAt(content, pattern, p, m, q)
            case Some(q) => exists m :: KeptGreedily(content, pattern, p, m, q)
  {
    var low := p + |pattern|;
    var e := SkipSpace(content, low, |content|);
    SkippedIsSpace(content, low, |content|);
    RestOfLineIs(content, low, e);
    assert e < |content| ==> !IsSpace(content[e]);
    forall m, q | KeptAt(content, pattern, p, m, q)
      ensures low <= m <= e
    {
    }
    match RestOfLine(content, low, e)
    case None =>
    case Some(q) =>
      var m :| LastStart(content, low, e, m, q);
      assert KeptAt(content, pattern, p, m, q);
      assert KeptGreedily(content, pattern, p, m, q);
  }

  /** The leftmost position from `from` on at which the expression matches, and what it matches there. */
  ghost predicate KeptFirst(content: string, pattern: string, from: nat, p: nat, m: int, q: int) {
    && from <= p && KeptGreedily(content, pattern, p, m, q)
    && forall o: nat, n, r :: from <= o < p ==> !KeptAt(content, pattern, o, n, r)
  }

  ghost predicate KeptAs(content: string, pattern: string, from: nat, line: string, p: nat, m: int, q: int) {
    KeptFirst(content, pattern, from, p, m, q) && p <= q <= |content| && line == content[p..q]
  }

  /**
    A kept line is what the regular expression matches first: the leftmost line that begins with the indented key,
    white space as far as possible, line breaks included, and the rest of a line that is not empty. Nothing is kept
    when it matches nowhere.
   */
  lemma {:induction false} KeptLineIs(content: string, pattern: string, from: nat)
    requires from <= |content|
    ensures || (KeptLine(content, pattern, from) == "" &&
                forall p: nat, m, q :: from <= p ==> !KeptAt(content, pattern, p, m, q))
            || exists p: nat, m, q :: KeptAs(content, pattern, from, KeptLine(content, pattern, from), p, m, q)
    decreases |content| - from
  {
    hide MatchesAt, FirstMatch, RestOfLine, SkipSpace, KeptAs, KeptAt;
    var hit := FirstMatch(content, pattern, from);
    NotKeptBefore(content, pattern, from);
    if hit != -1 {
      FirstMatchIsLeftmost(content, pattern, from);
      BehindPattern(content, pattern, hit);
      var low := hit + |pattern|;
      var rest := RestOfLine(content, low, SkipSpace(content, low, |content|));
      if rest.Some? {
        var m :| KeptGreedily(content, pattern, hit, m, rest.value);
        KeptHere(content, pattern, from, hit, m, rest.value);
      } else if hit < |content| {
        var next, line := hit + 1, KeptLine(content, pattern, hit + 1);
        KeptLineIs(content, pattern, next);
        if p: nat, m, q :| KeptAs(content, pattern, next, line, p, m, q) {
          KeptLater(content, pattern, from, next, line, p, m, q);
        }
      }
    }
  }

  /** Nothing is kept before the first match of the head, and nothing at all without one or behind the text. */
  lemma NotKeptBefore(content: string, pattern: string, from: nat)
    requires from <= |content|
    ensures var hit := FirstMatch(content, pattern, from);
            forall p: nat, m, q :: from <= p < (if hit == -1 then |content| + 1 else hit) || p > |content| ==>
              !KeptAt(content, pattern, p, m, q)
  {
    FirstMatchIsLeftmost(content, pattern, from);
    assert forall p: nat :: MatchesAt(content, p, pattern) ==> p <= |content|;
    hide MatchesAt, FirstMatch;
  }

  lemma KeptHere(content: string, pattern: string, from: nat, p: nat, m: int, q: int)
    requires from <= p && KeptGreedily(content, pattern, p, m, q)
    requires forall o: nat, n, r :: from <= o < p ==> !KeptAt(content, pattern, o, n, r)
    ensures p <= q <= |content| && KeptAs(content, pattern, from, content[p..q], p, m, q)
  {
    assert KeptFirst(content, pattern, from, p, m, q);
  }

  lemma KeptLater(
    content: string, pattern: string, from: nat, next: nat, line: string, p: nat, m: int, q: int)
    requires from <= next && KeptAs(content, pattern, next, line, p, m, q)
    requires forall o: nat, n, r :: from <= o < next ==> !KeptAt(content, pattern, o, n, r)
    ensures KeptAs(content, pattern, from, line, p, m, q)
  {
    hide KeptAt, KeptGreedily;
    assert KeptFirst(content, pattern, from, p, m, q);
  }
}
