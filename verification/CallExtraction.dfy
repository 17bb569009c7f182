/**
  Properties of the route scanner across its functions: splitting is lossless and canonical, the text
  between matched parentheses is what the splitter expects, string literals read back what was
  written, and the visited calls are disjoint, in order and complete.
 */
module CallExtraction {
  import opened TextSearch
  import opened CallScanner

  // ---------- Splitting is lossless ----------

  function Join(pieces: seq<string>): string
    decreases |pieces|
  {
    if pieces == [] then "" else if |pieces| == 1 then pieces[0] else pieces[0] + "," + Join(pieces[1..])
  }

  lemma JoinCons(piece: string, rest: seq<string>)
    ensures Join([piece] + rest) == piece + (if rest == [] then "" else "," + Join(rest))
  {
    assert ([piece] + rest)[1..] == rest;
  }

  lemma JoinGrow(head: string, pieces: seq<string>)
    requires |pieces| >= 1
    ensures Join(Grow(head, pieces)) == head + Join(pieces)
  {
    hide Join;
    var rest := pieces[1..];
    assert pieces == [pieces[0]] + rest;
    JoinCons(pieces[0], rest);
    JoinCons(head + pieces[0], rest);
    Associative(head, pieces[0], if rest == [] then "" else "," + Join(rest));
  }

  /** Joining the pieces with commas gives back the text. */
  lemma {:induction false} SplitLossless(t: string, q: Quoting, d: Depths)
    ensures Join(Split(t, q, d)) == t
    decreases t
  {
    if t != "" {
      var more := Split(t[1..], NextQuoting(q, t[0]), StepDepths(q, d, t[0]));
      SplitLossless(t[1..], NextQuoting(q, t[0]), StepDepths(q, d, t[0]));
      if Separates(q, d, t[0]) {
        assert ([""] + more)[1..] == more;
        assert t == "," + t[1..];
      } else {
        JoinGrow([t[0]], more);
        assert t == [t[0]] + t[1..];
      }
    }
  }

  // ---------- The state behind a piece ----------

  function QuotingAfter(q: Quoting, t: string): Quoting
    decreases t
  {
    if t == "" then q else QuotingAfter(NextQuoting(q, t[0]), t[1..])
  }

  function DepthsAfter(q: Quoting, d: Depths, t: string): Depths
    decreases t
  {
    if t == "" then d else DepthsAfter(NextQuoting(q, t[0]), StepDepths(q, d, t[0]), t[1..])
  }

  /** No quote is open and every bracket is closed: a comma would separate here. */
  predicate AtTop(q: Quoting, d: Depths) {
    q.quote.None? && d == FLAT
  }

  /** Splitting distributes over a comma at the top level. */
  lemma {:induction false} SplitConcat(a: string, b: string, q: Quoting, d: Depths)
    requires AtTop(QuotingAfter(q, a), DepthsAfter(q, d, a))
    ensures Split(a + "," + b, q, d) == Split(a, q, d) + Split(b, CLEAN, FLAT)
    decreases a
  {
    if a == "" {
      var t := "," + b;
      assert a + "," + b == t && t[1..] == b;
    } else {
      var t := a + "," + b;
      assert t[1..] == a[1..] + "," + b;
      SplitConcat(a[1..], b, NextQuoting(q, a[0]), StepDepths(q, d, a[0]));
    }
  }

  // ---------- Splitting is canonical ----------

  /** Every piece is one argument, and the scanner is at the top level behind every piece but the last. */
  ghost predicate Canonical(pieces: seq<string>) {
    && |pieces| >= 1
    && (forall k :: 0 <= k < |pieces| ==> Split(pieces[k], CLEAN, FLAT) == [pieces[k]])
    && (forall k :: 0 <= k < |pieces| - 1 ==>
          AtTop(QuotingAfter(CLEAN, pieces[k]), DepthsAfter(CLEAN, FLAT, pieces[k])))
  }

  /** The first piece of a split is unsplit in its own state, and the others are canonical. */
  lemma {:induction false} SplitPieces(t: string, q: Quoting, d: Depths)
    ensures var pieces := Split(t, q, d);
            && Split(pieces[0], q, d) == [pieces[0]]
            && (|pieces| > 1 ==>
                  && AtTop(QuotingAfter(q, pieces[0]), DepthsAfter(q, d, pieces[0]))
                  && Canonical(pieces[1..]))
    decreases t
  {
    if t != "" {
      var q1, d1 := NextQuoting(q, t[0]), StepDepths(q, d, t[0]);
      var more := Split(t[1..], q1, d1);
      var pieces := Split(t, q, d);
      SplitPieces(t[1..], q1, d1);
      if Separates(q, d, t[0]) {
        assert pieces[1..] == more;
        CanonicalCons(more);
      } else {
        assert pieces[1..] == more[1..];
        assert pieces[0][1..] == more[0];
      }
    }
  }

  lemma CanonicalCons(pieces: seq<string>)
    requires |pieces| >= 1 && Split(pieces[0], CLEAN, FLAT) == [pieces[0]]
    requires |pieces| > 1 ==>
               && AtTop(QuotingAfter(CLEAN, pieces[0]), DepthsAfter(CLEAN, FLAT, pieces[0]))
               && Canonical(pieces[1..])
    ensures Canonical(pieces)
  {
    forall k | 0 <= k < |pieces|
      ensures Split(pieces[k], CLEAN, FLAT) == [pieces[k]]
    {
      assert k > 0 ==> pieces[k] == pieces[1..][k - 1];
    }
    forall k | 0 <= k < |pieces| - 1
      ensures AtTop(QuotingAfter(CLEAN, pieces[k]), DepthsAfter(CLEAN, FLAT, pieces[k]))
    {
      assert k > 0 ==> pieces[k] == pieces[1..][k - 1];
    }
  }

  /** A canonical list of pieces is the split of its join. */
  lemma {:induction false} CanonicalIsSplit(pieces: seq<string>)
    requires Canonical(pieces)
    ensures Split(Join(pieces), CLEAN, FLAT) == pieces
    decreases |pieces|
  {
    if |pieces| > 1 {
      var rest := pieces[1..];
      assert Canonical(rest);
      CanonicalIsSplit(rest);
      SplitConcat(pieces[0], Join(rest), CLEAN, FLAT);
      assert pieces == [pieces[0]] + rest;
    }
  }

  /** The split of a text is the only canonical list of pieces that joins to it. */
  lemma SplitCharacterized(t: string, pieces: seq<string>)
    ensures pieces == Split(t, CLEAN, FLAT) <==> Join(pieces) == t && Canonical(pieces)
  {
    SplitLossless(t, CLEAN, FLAT);
    SplitPieces(t, CLEAN, FLAT);
    CanonicalCons(Split(t, CLEAN, FLAT));
    if Join(pieces) == t && Canonical(pieces) {
      CanonicalIsSplit(pieces);
    }
  }

  // ---------- The text between matched parentheses ----------

  /** `FindFrom` on positions against the splitter's state on the text from `i` to the closing parenthesis. */
  lemma {:induction false} ParenDepthInside(s: string, i: nat, q: Quoting, d: Depths, depth: int, j: nat)
    requires i <= |s| && i <= j <= FindFrom(s, i, q, depth, '(', ')') && depth >= 1 && d.paren == depth - 1
    ensures DepthsAfter(q, d, s[i..j]).paren >= 0
    ensures j == FindFrom(s, i, q, depth, '(', ')') ==>
              DepthsAfter(q, d, s[i..j]).paren == 0 && QuotingAfter(q, s[i..j]).quote.None?
    decreases j - i
  {
    if i < j {
      assert s[i..j][0] == s[i] && s[i..j][1..] == s[i + 1..j];
      ParenDepthInside(
        s, i + 1, NextQuoting(q, s[i]), StepDepths(q, d, s[i]), CallScanner.Level(q, depth, s[i], '(', ')'), j);
    } else {
      assert s[i..j] == "";
    }
  }

  /**
    Between a parenthesis and its match, the splitter's parenthesis depth never drops below zero and
    is back at zero at the end, with no quote open.
   */
  lemma ArgumentsBalanced(s: string, call: Call, n: nat)
    requires call.open < call.close < |s| && s[call.open] == '('
    requires call.close == MatchBracket(s, call.open, '(', ')')
    requires n <= |Arguments(s, call)|
    ensures DepthsAfter(CLEAN, FLAT, Arguments(s, call)[..n]).paren >= 0
    ensures DepthsAfter(CLEAN, FLAT, Arguments(s, call)).paren == 0
    ensures QuotingAfter(CLEAN, Arguments(s, call)).quote.None?
  {
    hide QuotingAfter, DepthsAfter;
    var args, i := Arguments(s, call), call.open + 1;
    assert MatchBracket(s, call.open, '(', ')') == FindFrom(s, i, CLEAN, 1, '(', ')');
    assert args[..n] == s[i..i + n] && args == s[i..call.close];
    ParenDepthInside(s, i, CLEAN, FLAT, 1, i + n);
    ParenDepthInside(s, i, CLEAN, FLAT, 1, call.close);
  }

  // ---------- String literals ----------

  lemma {:induction false} LiteralEndIs(s: string, quote: char, i: nat, e: nat)
    requires 1 <= i <= e < |s| && s[e] == quote && s[e - 1] != '\\'
    requires forall k :: i <= k < e ==> !(s[k] == quote && s[k - 1] != '\\')
    ensures LiteralEnd(s, quote, i) == e
    decreases e - i
  {
    if i < e {
      assert !(s[i] == quote && s[i - 1] != '\\');
      LiteralEndIs(s, quote, i + 1, e);
    }
  }

  lemma {:induction false} TrimEndKeeps(a: string, rest: string)
    requires a != "" && !IsSpace(a[|a| - 1])
    ensures a <= TrimEnd(a + rest)
    decreases |rest|
  {
    if rest == "" {
      assert a + rest == a;
    } else if IsSpace(rest[|rest| - 1]) {
      assert (a + rest)[..|a + rest| - 1] == a + rest[..|rest| - 1];
      TrimEndKeeps(a, rest[..|rest| - 1]);
    }
  }

  predicate EscapedAt(quote: char, value: string, k: nat)
    requires k < |value|
  {
    value[k] == quote ==> k > 0 && value[k - 1] == '\\'
  }

  /** The body of a literal: every quote in it is preceded by a backslash, and it does not end in one. */
  predicate LiteralBody(quote: char, value: string) {
    && (forall k :: 0 <= k < |value| ==> EscapedAt(quote, value, k))
    && (value != "" ==> value[|value| - 1] != '\\')
  }

  /** Reading gives back exactly what stands between the quotes, whatever surrounds the literal. */
  lemma LiteralReadsBack(space: string, quote: char, value: string, rest: string)
    requires IsQuote(quote) && LiteralBody(quote, value)
    requires forall c :: c in space ==> IsSpace(c)
    ensures ReadLiteral(Some(space + [quote] + value + [quote] + rest)) == Some(value)
  {
    var raw := space + [quote] + value + [quote] + rest;
    var literal := [quote] + value + [quote];
    assert raw == space + (literal + rest);
    assert forall k :: 0 <= k < |space| ==> raw[k] == space[k];
    assert raw[|space|] == quote;
    SkipSpaceIs(raw, 0, |raw|, |space|);
    assert raw[|space|..] == literal + rest;
    TrimEndKeeps(literal, rest);
    var source := Trim(raw);
    assert source == literal + source[|literal|..];
    LiteralEndOf(quote, value, source[|literal|..]);
    assert source[1..|value| + 1] == value;
  }

  lemma LiteralEndOf(quote: char, value: string, tail: string)
    requires IsQuote(quote) && LiteralBody(quote, value)
    ensures LiteralEnd([quote] + value + [quote] + tail, quote, 1) == |value| + 1
  {
    var source, e := [quote] + value + [quote] + tail, |value| + 1;
    forall k | 1 <= k < e
      ensures !(source[k] == quote && source[k - 1] != '\\')
    {
      assert source[k] == value[k - 1];
      assert k > 1 ==> source[k - 1] == value[k - 2];
      assert EscapedAt(quote, value, k - 1);
    }
    if value != "" {
      assert source[e - 1] == value[|value| - 1];
    }
    LiteralEndIs(source, quote, 1, e);
  }

  /** Conversely, whatever is read is such a literal at the front of the trimmed text. */
  lemma ReadIsLiteral(raw: string, value: string)
    requires ReadLiteral(Some(raw)) == Some(value)
    ensures var source := Trim(raw);
            && source != "" && IsQuote(source[0])
            && [source[0]] + value + [source[0]] <= source
            && LiteralBody(source[0], value)
  {
    var source := Trim(raw);
    var e := LiteralEnd(source, source[0], 1);
    LiteralEndFirst(source, source[0], 1);
    forall k | 0 <= k < |value|
      ensures EscapedAt(source[0], value, k)
    {
      assert value[k] == source[k + 1];
      assert k > 0 ==> value[k - 1] == source[k];
    }
    assert value != "" ==> value[|value| - 1] == source[e - 1];
    assert [source[0]] + value + [source[0]] == source[..e + 1];
  }

  lemma {:induction false} LiteralEndFirst(s: string, quote: char, i: nat)
    requires 1 <= i <= |s|
    ensures var e := LiteralEnd(s, quote, i);
            && (e >= 0 ==> s[e] == quote && s[e - 1] != '\\')
            && forall k :: i <= k < (if e == -1 then |s| else e) ==> !(s[k] == quote && s[k - 1] != '\\')
    decreases |s| - i
  {
    if i < |s| && !(s[i] == quote && s[i - 1] != '\\') {
      LiteralEndFirst(s, quote, i + 1);
    }
  }

  // ---------- The visited calls ----------

  lemma CallsStep(s: string, i: nat)
    ensures i >= |s| ==> Calls(s, i) == []
    ensures i < |s| ==>
              match CallAt(s, i, ROUTE_METHODS)
              case None => Calls(s, i) == Calls(s, i + 1)
              case Some(call) => Calls(s, i) == [call] + Calls(s, call.close + 1)
  {
    hide CallAt;
  }

  /** The calls visited from `i` on lie behind `i` and are disjoint and strictly increasing. */
  ghost predicate InOrder(s: string, i: nat, calls: seq<Call>) {
    && (forall k :: 0 <= k < |calls| ==>
          && i <= calls[k].at < calls[k].open < calls[k].close < |s|
          && CallAt(s, calls[k].at, ROUTE_METHODS) == Some(calls[k]))
    && (forall j, k :: 0 <= j < k < |calls| ==> calls[j].close < calls[k].at)
  }

  lemma {:induction false} CallsInOrder(s: string, i: nat)
    ensures InOrder(s, i, Calls(s, i))
    decreases |s| - i
  {
    hide CallAt, Calls;
    CallsStep(s, i);
    if i < |s| {
      match CallAt(s, i, ROUTE_METHODS)
      case None => CallsInOrder(s, i + 1);
      case Some(call) => CallsInOrder(s, call.close + 1);
    }
  }

  /** One of the calls begins at the position or spans it. */
  predicate Reached(calls: seq<Call>, p: nat) {
    exists k :: 0 <= k < |calls| && calls[k].at <= p <= calls[k].close
  }

  lemma ReachedBehind(call: Call, more: seq<Call>, p: nat)
    ensures call.at <= p <= call.close || Reached(more, p) ==> Reached([call] + more, p)
  {
    var calls := [call] + more;
    if call.at <= p <= call.close {
      assert calls[0] == call;
    } else if k :| 0 <= k < |more| && more[k].at <= p <= more[k].close {
      assert calls[k + 1] == more[k];
    }
  }

  /** Nothing is missed: wherever a call begins, a visited call begins there or spans that position. */
  lemma {:induction false} CallsComplete(s: string, i: nat, p: nat)
    requires i <= p < |s| && CallAt(s, p, ROUTE_METHODS).Some?
    ensures Reached(Calls(s, i), p)
    decreases |s| - i
  {
    hide CallAt, Calls, Reached;
    CallsStep(s, i);
    match CallAt(s, i, ROUTE_METHODS)
    case None =>
      CallsComplete(s, i + 1, p);
    case Some(call) =>
      ReachedBehind(call, Calls(s, call.close + 1), p);
      if p > call.close {
        CallsComplete(s, call.close + 1, p);
      }
  }

  /** The routes recorded for a list of visited calls. */
  function RoutesOf(s: string, calls: seq<Call>): seq<Route>
    requires forall k :: 0 <= k < |calls| ==> calls[k].at < calls[k].open < calls[k].close < |s|
  {
    if calls == [] then []
    else Recorded(s, calls[0]) + RoutesOf(s, calls[1..])
  }

  lemma RoutesOfMore(s: string, call: Call, more: seq<Call>)
    requires forall k :: 0 <= k < |[call] + more| ==>
               ([call] + more)[k].at < ([call] + more)[k].open < ([call] + more)[k].close < |s|
    requires forall k :: 0 <= k < |more| ==> more[k].at < more[k].open < more[k].close < |s|
    requires call.at < call.open < call.close < |s|
    ensures RoutesOf(s, [call] + more) == Recorded(s, call) + RoutesOf(s, more)
  {
    hide Recorded;
    assert ([call] + more)[1..] == more;
  }

  /** Visited calls lie in the text. */
  lemma CallsInside(s: string, i: nat)
    ensures forall k :: 0 <= k < |Calls(s, i)| ==>
              Calls(s, i)[k].at < Calls(s, i)[k].open < Calls(s, i)[k].close < |s|
  {
    hide Calls, CallAt;
    CallsInOrder(s, i);
  }

  /** The collected routes are the recorded ones among the visited calls. */
  lemma {:induction false} RoutesAreOfCalls(s: string, i: nat)
    ensures forall k :: 0 <= k < |Calls(s, i)| ==>
              Calls(s, i)[k].at < Calls(s, i)[k].open < Calls(s, i)[k].close < |s|
    ensures RoutesFrom(s, i) == RoutesOf(s, Calls(s, i))
    decreases |s| - i
  {
    hide CallAt, Calls, RoutesFrom, RouteOf;
    CallsInside(s, i);
    CallsStep(s, i);
    if i >= |s| {
      NoRoutesPastEnd(s, i);
    } else {
      RoutesStep(s, i);
      match CallAt(s, i, ROUTE_METHODS)
      case None => RoutesAreOfCalls(s, i + 1);
      case Some(call) =>
        RoutesAreOfCalls(s, call.close + 1);
        RoutesOfMore(s, call, Calls(s, call.close + 1));
    }
  }

  lemma {:induction false} LineBreaksConcat(a: string, b: string)
    ensures CountLineBreaks(a + b) == CountLineBreaks(a) + CountLineBreaks(b)
    decreases a
  {
    if a == "" {
      assert a + b == b;
    } else {
      assert (a + b)[1..] == a[1..] + b;
      LineBreaksConcat(a[1..], b);
    }
  }

  lemma LinesMonotone(s: string, i: nat, j: nat)
    requires i <= j <= |s|
    ensures LineOf(s, i) <= LineOf(s, j)
  {
    assert s[..j] == s[..i] + s[i..j];
    LineBreaksConcat(s[..i], s[i..j]);
  }

  /** Recorded routes have a path, their lines never decrease, and all lie at or behind the starting position. */
  lemma {:induction false} RoutesInOrder(s: string, i: nat)
    requires i <= |s|
    ensures forall k :: 0 <= k < |RoutesFrom(s, i)| ==>
              RoutesFrom(s, i)[k].path != "" && LineOf(s, i) <= RoutesFrom(s, i)[k].line
    ensures forall j, k :: 0 <= j < k < |RoutesFrom(s, i)| ==>
              RoutesFrom(s, i)[j].line <= RoutesFrom(s, i)[k].line
    decreases |s| - i
  {
    hide CallAt, LineOf, RoutesFrom, Split, ReadLiteral;
    if i == |s| {
      NoRoutesPastEnd(s, i);
    } else {
      RoutesStep(s, i);
      match CallAt(s, i, ROUTE_METHODS)
      case None =>
        RoutesInOrder(s, i + 1);
        LinesMonotone(s, i, i + 1);
      case Some(call) =>
        RoutesInOrder(s, call.close + 1);
        LinesMonotone(s, i, call.close + 1);
        LinesMonotone(s, i, call.at);
    }
  }
}
