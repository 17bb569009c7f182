/**
  Which commas separate arguments: the splitter of the route scanner against counts of the brackets in front of
  each position, which know nothing of its four depths.
 */
module ArgumentSplit {
  import opened TextSearch
  import opened CallScanner
  import opened CallExtraction

  // ---------- Counting brackets ----------

  /** The position is neither quoted nor a quote. */
  predicate CodeAt(s: string, p: nat)
    requires p < |s|
  {
    IsCode(QuotingAfter(CLEAN, s[..p]), s[p])
  }

  /** How often the character occurs as code before position `p`. */
  function Occurs(s: string, c: char, p: nat): nat
    requires p <= |s|
  {
    if p == 0 then 0 else Occurs(s, c, p - 1) + if s[p - 1] == c && CodeAt(s, p - 1) then 1 else 0
  }

  /** Before `p`, as many brackets of the kind have been opened as closed. */
  predicate Even(s: string, open: char, close: char, p: nat)
    requires p <= |s|
  {
    Occurs(s, open, p) == Occurs(s, close, p)
  }

  function Net(s: string, open: char, close: char, p: nat): int
    requires p <= |s|
  {
    Occurs(s, open, p) - Occurs(s, close, p)
  }

  /** No angle bracket is open at `p`, where closing ones that close nothing are ignored. */
  ghost predicate NoAngleOpen(s: string, p: nat)
    requires p <= |s|
  {
    forall q :: 0 <= q <= p ==> Net(s, '<', '>', p) <= Net(s, '<', '>', q)
  }

  /** An unquoted comma with every kind of bracket closed before it. */
  ghost predicate IsSeparator(s: string, p: nat)
    requires p < |s|
  {
    && s[p] == ',' && CodeAt(s, p)
    && Even(s, '(', ')', p) && Even(s, '{', '}', p) && Even(s, '[', ']', p) && NoAngleOpen(s, p)
  }

  // ---------- The splitter's state in terms of the counts ----------

  lemma {:induction false} StateAfterOneMore(q: Quoting, d: Depths, t: string, c: char)
    ensures QuotingAfter(q, t + [c]) == NextQuoting(QuotingAfter(q, t), c)
    ensures DepthsAfter(q, d, t + [c]) == StepDepths(QuotingAfter(q, t), DepthsAfter(q, d, t), c)
    decreases |t|
  {
    hide NextQuoting, StepDepths;
    if t == "" {
      assert "" + [c] == [c] && [c][1..] == "";
      assert QuotingAfter(NextQuoting(q, c), "") == NextQuoting(q, c);
      assert DepthsAfter(NextQuoting(q, c), StepDepths(q, d, c), "") == StepDepths(q, d, c);
    } else {
      assert (t + [c])[0] == t[0] && (t + [c])[1..] == t[1..] + [c];
      StateAfterOneMore(NextQuoting(q, t[0]), StepDepths(q, d, t[0]), t[1..], c);
    }
  }

  lemma StateStep(s: string, p: nat)
    requires p < |s|
    ensures QuotingAfter(CLEAN, s[..p + 1]) == NextQuoting(QuotingAfter(CLEAN, s[..p]), s[p])
    ensures DepthsAfter(CLEAN, FLAT, s[..p + 1]) ==
            StepDepths(QuotingAfter(CLEAN, s[..p]), DepthsAfter(CLEAN, FLAT, s[..p]), s[p])
  {
    assert s[..p + 1] == s[..p] + [s[p]];
    StateAfterOneMore(CLEAN, FLAT, s[..p], s[p]);
  }

  lemma StateAtStart(s: string)
    ensures QuotingAfter(CLEAN, s[..0]) == CLEAN && DepthsAfter(CLEAN, FLAT, s[..0]) == FLAT
  {
  }

  /** The angle level is the largest net number of angle brackets opened since some position. */
  ghost predicate AngleIs(s: string, p: nat, level: int)
    requires p <= |s|
  {
    && (forall q :: 0 <= q <= p ==> Net(s, '<', '>', p) - Net(s, '<', '>', q) <= level)
    && exists q :: 0 <= q <= p && Net(s, '<', '>', p) - Net(s, '<', '>', q) == level
  }

  lemma NetStep(s: string, open: char, close: char, p: nat)
    requires p < |s|
    ensures Net(s, open, close, p + 1) ==
            Net(s, open, close, p) + (if s[p] == open && CodeAt(s, p) then 1 else 0)
                                   - (if s[p] == close && CodeAt(s, p) then 1 else 0)
  {
  }

  lemma AngleStep(s: string, p: nat, level: int)
    requires p < |s| && AngleIs(s, p, level)
    ensures AngleIs(s, p + 1, if !CodeAt(s, p) then level
                              else if s[p] == '<' then level + 1
                              else if s[p] == '>' then (if level - 1 > 0 then level - 1 else 0)
                              else level)
  {
    NetStep(s, '<', '>', p);
    hide Net, CodeAt;
    var q :| 0 <= q <= p && Net(s, '<', '>', p) - Net(s, '<', '>', q) == level;
    assert Net(s, '<', '>', p + 1) - Net(s, '<', '>', p + 1) == 0;
    assert Net(s, '<', '>', p) - Net(s, '<', '>', p) <= level;
  }

  /** The splitter's depths are the net numbers of brackets in front, and its angle level is the clamped one. */
  lemma {:induction false} DepthsAreCounts(s: string, p: nat)
    requires p <= |s|
    ensures var d := DepthsAfter(CLEAN, FLAT, s[..p]);
            && d.paren == Net(s, '(', ')', p) && d.brace == Net(s, '{', '}', p) && d.bracket == Net(s, '[', ']', p)
            && AngleIs(s, p, d.angle)
  {
    if p == 0 {
      StateAtStart(s);
      assert Net(s, '<', '>', 0) - Net(s, '<', '>', 0) == 0;
    } else {
      DepthsAreCounts(s, p - 1);
      StateStep(s, p - 1);
      NetStep(s, '(', ')', p - 1);
      NetStep(s, '{', '}', p - 1);
      NetStep(s, '[', ']', p - 1);
      AngleStep(s, p - 1, DepthsAfter(CLEAN, FLAT, s[..p - 1]).angle);
      hide Net, DepthsAfter, QuotingAfter, AngleIs;
    }
  }

  /** The splitter separates at a position exactly when the counts say so. */
  lemma SeparatesIff(s: string, p: nat)
    requires p < |s|
    ensures Separates(QuotingAfter(CLEAN, s[..p]), DepthsAfter(CLEAN, FLAT, s[..p]), s[p]) <==> IsSeparator(s, p)
  {
    DepthsAreCounts(s, p);
    var d := DepthsAfter(CLEAN, FLAT, s[..p]);
    hide Occurs, DepthsAfter, QuotingAfter;
    assert d.angle == 0 <==> NoAngleOpen(s, p) by {
      assert Net(s, '<', '>', p) - Net(s, '<', '>', p) == 0;
    }
  }

  // ---------- Where pieces end ----------

  /** A piece that is not the last one ends at the position. */
  ghost predicate EndsPiece(pieces: seq<string>, p: nat) {
    exists k :: 0 < k < |pieces| && |Join(pieces[..k])| == p
  }

  lemma EndsBehindComma(more: seq<string>, p: nat)
    requires |more| >= 1
    ensures EndsPiece([""] + more, p) <==> p == 0 || EndsPiece(more, p - 1)
  {
    var pieces := [""] + more;
    assert pieces[..1] == [""];
    assert |Join(pieces[..1])| == 0;
    forall k | 0 < k < |more|
      ensures |Join(pieces[..k + 1])| == 1 + |Join(more[..k])|
    {
      assert pieces[..k + 1] == [""] + more[..k];
      JoinCons("", more[..k]);
    }
    if k :| 0 < k < |pieces| && |Join(pieces[..k])| == p {
      if k > 1 {
        assert |Join(pieces[..(k - 1) + 1])| == 1 + |Join(more[..k - 1])|;
      }
    }
    if p > 0 && EndsPiece(more, p - 1) {
      var k :| 0 < k < |more| && |Join(more[..k])| == p - 1;
      assert |Join(pieces[..k + 1])| == p;
    }
  }

  lemma EndsBehindOther(c: char, more: seq<string>, p: nat)
    requires |more| >= 1
    ensures EndsPiece(Grow([c], more), p) <==> p > 0 && EndsPiece(more, p - 1)
  {
    var pieces := Grow([c], more);
    forall k | 0 < k < |more|
      ensures |Join(pieces[..k])| == 1 + |Join(more[..k])|
    {
      assert pieces[..k] == Grow([c], more[..k]);
      JoinGrow([c], more[..k]);
    }
    if k :| 0 < k < |pieces| && |Join(pieces[..k])| == p {
      assert |Join(more[..k])| == p - 1;
    }
    if p > 0 && EndsPiece(more, p - 1) {
      var k :| 0 < k < |more| && |Join(more[..k])| == p - 1;
      assert |Join(pieces[..k])| == p;
    }
  }

  lemma {:induction false} EndsWhereSeparated(t: string, q: Quoting, d: Depths, p: nat)
    ensures EndsPiece(Split(t, q, d), p) <==>
            p < |t| && Separates(QuotingAfter(q, t[..p]), DepthsAfter(q, d, t[..p]), t[p])
    decreases t
  {
    hide Separates, StepDepths, NextQuoting;
    if t == "" {
      assert Split(t, q, d) == [""];
    } else {
      var q1, d1 := NextQuoting(q, t[0]), StepDepths(q, d, t[0]);
      var more := Split(t[1..], q1, d1);
      if Separates(q, d, t[0]) {
        EndsBehindComma(more, p);
      } else {
        EndsBehindOther(t[0], more, p);
      }
      if p > 0 {
        EndsWhereSeparated(t[1..], q1, d1, p - 1);
        if p < |t| {
          assert t[..p][0] == t[0] && t[..p][1..] == t[1..][..p - 1];
        }
      } else {
        assert t[..0] == "";
      }
    }
  }

  /**
    For every text: a piece ends at a position if and only if an unquoted comma stands there and, counted over the
    unquoted text before it, as many parentheses, braces and square brackets are closed as opened, and no angle
    bracket is open.
   */
  lemma PieceEndsIff(s: string, p: nat)
    ensures EndsPiece(Split(s, CLEAN, FLAT), p) <==> p < |s| && IsSeparator(s, p)
  {
    hide Separates, IsSeparator, Split;
    EndsWhereSeparated(s, CLEAN, FLAT, p);
    if p < |s| {
      SeparatesIff(s, p);
    }
  }

  // ---------- Matched brackets stay in one piece ----------

  lemma {:induction false} SlashIsPrevious(s: string, i: nat)
    requires i <= |s|
    ensures QuotingAfter(CLEAN, s[..i]).slash <==> i > 0 && s[i - 1] == '\\'
  {
    if i == 0 {
      StateAtStart(s);
    } else {
      StateStep(s, i - 1);
    }
  }

  /** Until the match is found, more brackets have been opened than closed. */
  lemma {:induction false} DepthBeforeMatch(s: string, i: nat, q: Quoting, d: int, open: char, close: char, p: nat)
    requires i <= |s| && q == QuotingAfter(CLEAN, s[..i]) && d >= 1
    requires i <= p <= FindFrom(s, i, q, d, open, close)
    ensures Net(s, open, close, p) - Net(s, open, close, i) + d >= 1
    decreases p - i
  {
    if i < p {
      StateStep(s, i);
      NetStep(s, open, close, i);
      hide Net, QuotingAfter;
      DepthBeforeMatch(s, i + 1, NextQuoting(q, s[i]), CallScanner.Level(q, d, s[i], open, close), open, close, p);
    }
  }

  /** Between a bracket in code and its match, one more bracket of the kind is open than before it. */
  lemma OpenInsideMatch(s: string, i: nat, open: char, close: char, p: nat)
    requires i < |s| && s[i] == open && CodeAt(s, i) && open != close
    requires i < p <= MatchBracket(s, i, open, close)
    ensures Net(s, open, close, p) > Net(s, open, close, i)
  {
    var q := QuotingAfter(CLEAN, s[..i]);
    SlashIsPrevious(s, i);
    assert q == StartAt(s, i);
    StateStep(s, i);
    NetStep(s, open, close, i);
    hide QuotingAfter, Occurs;
    DepthBeforeMatch(s, i + 1, NextQuoting(q, s[i]), 1, open, close, p);
  }

  predicate IsBracketPair(open: char, close: char) {
    (open == '(' && close == ')') || (open == '{' && close == '}') || (open == '[' && close == ']')
  }

  /**
    In every text: no piece ends between a bracket in code and its match, when before it no more brackets of the
    kind have been closed than opened.
   */
  lemma MatchedInOnePiece(s: string, i: nat, open: char, close: char, p: nat)
    requires i < |s| && s[i] == open && CodeAt(s, i) && IsBracketPair(open, close)
    requires i <= p <= MatchBracket(s, i, open, close)
    requires Occurs(s, open, i) >= Occurs(s, close, i)
    ensures !EndsPiece(Split(s, CLEAN, FLAT), p)
  {
    hide Occurs, CodeAt, MatchBracket, EndsPiece, Split;
    PieceEndsIff(s, p);
    if i < p {
      OpenInsideMatch(s, i, open, close, p);
    }
  }
}
