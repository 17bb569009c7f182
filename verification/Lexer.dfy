/**
  The lexical structure that the locale pruner relies on: strings in three kinds of quotes,
  backslash escapes, line comments, block comments and code, as a fold over single characters.

  The automaton needs no lookahead.  `Slash` is code whose previous character was a `/`, and
  `Star` is a block comment whose previous character was a `*`.
 */
module Lexer {
  import opened TextSearch

  datatype Mode =
    | Code
    | Slash
    | Line
    | Block
    | Star
    | Str(quote: char)
    | Esc(quote: char)

  predicate InCode(m: Mode) {
    m == Code || m == Slash
  }

  function NextMode(m: Mode, c: char): Mode {
    match m
    case Code => CodeStep(c)
    case Slash => if c == '/' then Line else if c == '*' then Block else CodeStep(c)
    case Line => if c == '\n' then Code else Line
    case Block => if c == '*' then Star else Block
    case Star => if c == '/' then Code else if c == '*' then Star else Block
    case Str(q) => if c == '\\' then Esc(q) else if c == q then Code else Str(q)
    case Esc(q) => Str(q)
  }

  function CodeStep(c: char): Mode {
    if c == '/' then Slash else if IsQuote(c) then Str(c) else Code
  }

  function NextDepth(m: Mode, d: int, c: char): int {
    if !InCode(m) then d
    else if c == '{' then d + 1
    else if c == '}' then d - 1
    else d
  }

  // ---------- The plain folds ----------

  function ModeAfter(m: Mode, t: string): Mode
    decreases t
  {
    if t == "" then m else ModeAfter(NextMode(m, t[0]), t[1..])
  }

  function DepthAfter(m: Mode, d: int, t: string): int
    decreases t
  {
    if t == "" then d else DepthAfter(NextMode(m, t[0]), NextDepth(m, d, t[0]), t[1..])
  }

  /** The `}` at position `p` is code and takes the depth from 1 to 0. */
  ghost predicate ClosesAt(t: string, m: Mode, d: int, p: int) {
    && 0 <= p < |t|
    && t[p] == '}'
    && InCode(ModeAfter(m, t[..p]))
    && DepthAfter(m, d, t[..p]) == 1
  }

  // ---------- The search for the first closing brace ----------

  datatype Outcome =
    | Closed(at: nat)
    | Running(mode: Mode, depth: int)
  {
    function Delay(n: nat): Outcome {
      match this
      case Closed(p) => Closed(p + n)
      case Running(_, _) => this
    }
  }

  predicate Closing(m: Mode, d: int, c: char) {
    c == '}' && InCode(m) && d == 1
  }

  function Scan(t: string, m: Mode, d: int): (outcome: Outcome)
    ensures outcome.Closed? ==> outcome.at < |t| && t[outcome.at] == '}'
    decreases t
  {
    if t == "" then Running(m, d)
    else if Closing(m, d, t[0]) then Closed(0)
    else Scan(t[1..], NextMode(m, t[0]), NextDepth(m, d, t[0])).Delay(1)
  }

  lemma ScanCons(c: char, t: string, m: Mode, d: int)
    requires !Closing(m, d, c)
    ensures Scan([c] + t, m, d) == Scan(t, NextMode(m, c), NextDepth(m, d, c)).Delay(1)
  {
    assert ([c] + t)[1..] == t;
  }

  /** Scanning finds the first closing position of the folds, and nothing exactly when there is none. */
  lemma {:induction false} ScanIsFirstClose(t: string, m: Mode, d: int)
    ensures match Scan(t, m, d)
            case Closed(p) => ClosesAt(t, m, d, p) && forall q :: 0 <= q < p ==> !ClosesAt(t, m, d, q)
            case Running(m', d') =>
              m' == ModeAfter(m, t) && d' == DepthAfter(m, d, t) && forall q :: !ClosesAt(t, m, d, q)
  {
    if t != "" && !Closing(m, d, t[0]) {
      var m1, d1 := NextMode(m, t[0]), NextDepth(m, d, t[0]);
      ScanIsFirstClose(t[1..], m1, d1);
      forall q | 0 <= q < |t|
        ensures ClosesAt(t, m, d, q) == ClosesAt(t[1..], m1, d1, q - 1)
      {
        if q == 0 {
          assert t[..0] == "";
        } else {
          assert t[..q][1..] == t[1..][..q - 1];
        }
      }
    } else if t != "" {
      assert t[..0] == "";
    }
  }

  lemma {:induction false} ScanConcat(a: string, b: string, m: Mode, d: int)
    ensures Scan(a + b, m, d) ==
            match Scan(a, m, d)
            case Closed(p) => Closed(p)
            case Running(m', d') => Scan(b, m', d').Delay(|a|)
  {
    if a == "" {
      assert a + b == b;
      assert Scan(b, m, d) == Scan(b, m, d).Delay(0);
    } else if !Closing(m, d, a[0]) {
      assert (a + b)[1..] == a[1..] + b;
      ScanConcat(a[1..], b, NextMode(m, a[0]), NextDepth(m, d, a[0]));
    }
  }

  /** A positive depth stays positive while nothing closes, and lifting it changes nothing else. */
  lemma {:induction false} ScanLifted(t: string, m: Mode, d: int, k: nat)
    requires d >= 1
    requires Scan(t, m, d).Running?
    ensures Scan(t, m, d).depth >= 1
    ensures Scan(t, m, d + k) == Running(Scan(t, m, d).mode, Scan(t, m, d).depth + k)
  {
    if t != "" {
      ScanLifted(t[1..], NextMode(m, t[0]), NextDepth(m, d, t[0]), k);
    }
  }

  /** A prefix that stops before the closing brace is still running. */
  lemma ScanPrefixRuns(t: string, m: Mode, d: int, n: nat)
    requires Scan(t, m, d).Closed? && n <= Scan(t, m, d).at
    ensures Scan(t, m, d).at < |t|
    ensures Scan(t[..n], m, d).Running?
  {
    ScanIsFirstClose(t, m, d);
    ScanIsFirstClose(t[..n], m, d);
    forall q | 0 <= q < n
      ensures ClosesAt(t[..n], m, d, q) == ClosesAt(t, m, d, q)
    {
      assert t[..n][..q] == t[..q];
    }
  }

  /** What closes at depth `d` merely steps down to `k` when everything is `k` levels deeper. */
  lemma ScanThroughClose(t: string, m: Mode, d: int, k: int)
    requires d >= 1 && k >= 1
    requires Scan(t, m, d).Closed?
    ensures Scan(t, m, d).at < |t|
    ensures Scan(t[..Scan(t, m, d).at + 1], m, d + k) == Running(Code, k)
  {
    var p := Scan(t, m, d).at;
    ScanIsFirstClose(t, m, d);
    ScanPrefixRuns(t, m, d, p);
    ScanIsFirstClose(t[..p], m, d);
    ScanLifted(t[..p], m, d, k);
    assert t[..p + 1] == t[..p] + "}";
    ScanConcat(t[..p], "}", m, d + k);
    assert "}"[1..] == "";
  }

  /** A brace opened inside an outer pair closes before the outer one, back at the depth it was opened at. */
  lemma InnerClosesFirst(t: string, d: nat)
    requires d >= 1
    requires Scan(t, Code, d + 1).Closed?
    ensures Scan(t, Code, 1).Closed?
    ensures var p := Scan(t, Code, 1).at;
            && p < Scan(t, Code, d + 1).at
            && Scan(t[..p + 1], Code, d + 1) == Running(Code, d)
  {
    if Scan(t, Code, 1).Running? {
      ScanLifted(t, Code, 1, d);
      assert false;
    }
    var p := Scan(t, Code, 1).at;
    ScanThroughClose(t, Code, 1, d);
    assert t == t[..p + 1] + t[p + 1..];
    ScanConcat(t[..p + 1], t[p + 1..], Code, d + 1);
  }

  lemma {:induction false} DepthShifts(t: string, m: Mode, d: int, k: int)
    ensures DepthAfter(m, d + k, t) == DepthAfter(m, d, t) + k
    decreases t
  {
    if t != "" {
      DepthShifts(t[1..], NextMode(m, t[0]), NextDepth(m, d, t[0]), k);
    }
  }

  /** Only one starting depth makes a text close at a given position. */
  lemma ClosePositionFixesDepth(t: string, m: Mode, d: int, d': int)
    requires Scan(t, m, d).Closed? && Scan(t, m, d') == Scan(t, m, d)
    ensures d == d'
  {
    ScanIsFirstClose(t, m, d);
    ScanIsFirstClose(t, m, d');
    DepthShifts(t[..Scan(t, m, d).at], m, d, d' - d);
  }

  // ---------- Balanced text ----------

  /** Text that starts and ends in code at the same depth and never dips below it. */
  predicate Balanced(t: string) {
    Scan(t, Code, 1) == Running(Code, 1)
  }

  lemma BalancedAtDepth(t: string, d: int)
    requires Balanced(t) && d >= 1
    ensures Scan(t, Code, d) == Running(Code, d)
  {
    ScanLifted(t, Code, 1, d - 1);
  }

  lemma BalancedConcat(a: string, b: string)
    requires Balanced(a) && Balanced(b)
    ensures Balanced(a + b)
  {
    ScanConcat(a, b, Code, 1);
  }

  /** A balanced body between braces is found to close at its last character, whatever follows. */
  lemma BracesClose(body: string, rest: string)
    requires Balanced(body)
    ensures Scan("{" + body + "}" + rest, Code, 0) == Closed(|body| + 1)
  {
    var open := "{";
    assert open[1..] == "";
    assert Scan(open, Code, 0) == Running(Code, 1);
    ScanConcat(open, body + ("}" + rest), Code, 0);
    ScanConcat(body, "}" + rest, Code, 1);
    assert "{" + body + "}" + rest == open + (body + ("}" + rest));
    assert Scan("}" + rest, Code, 1) == Closed(0);
  }

  lemma BracesBalanced(body: string)
    requires Balanced(body)
    ensures Balanced("{" + body + "}")
  {
    var open, close := "{", "}";
    assert open[1..] == "" && close[1..] == "";
    BalancedAtDepth(body, 2);
    assert Scan(open, Code, 1) == Running(Code, 2);
    assert Scan(close, Code, 2) == Running(Code, 1);
    ScanConcat(open + body, close, Code, 1);
    ScanConcat(open, body, Code, 1);
  }

  /** Text without quotes, slashes or braces is balanced. */
  predicate Plain(t: string) {
    forall c :: c in t ==> c != '/' && c != '{' && c != '}' && !IsQuote(c)
  }

  lemma {:induction false} PlainRuns(t: string, d: int)
    requires Plain(t)
    ensures Scan(t, Code, d) == Running(Code, d)
  {
    if t != "" {
      assert t[0] in t;
      assert forall c :: c in t[1..] ==> c in t;
      PlainRuns(t[1..], d);
    }
  }
}
