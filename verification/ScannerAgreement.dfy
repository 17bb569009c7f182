/**
  The two brace scanners of the repository compared: the pruner's, with comments and an escape flag,
  and the route scanner's, without comments and with a look at the previous character.
 */
module ScannerAgreement {
  import opened TextSearch
  import opened Lexer
  import P = LocalePruner
  import C = CallScanner

  /** The states in which the two scanners agree on what they have read. */
  predicate Corresponds(m: Mode, q: C.Quoting) {
    match m
    case Code => q.quote.None?
    case Slash => q.quote.None?
    case Str(x) => q.quote == Some(x) && IsQuote(x)
    case Esc(x) => q == C.Quoting(Some(x), true) && IsQuote(x)
    case _ => false
  }

  /** A comment opens in code, or a quote closes a string directly behind an escaped backslash. */
  predicate Diverges(m: Mode, q: C.Quoting, c: char) {
    match m
    case Slash => c == '/' || c == '*'
    case Str(x) => c == x && q.slash
    case _ => false
  }

  /** Reading on up to `end`, neither of the two happens. */
  predicate Smooth(s: string, i: nat, end: nat, m: Mode, q: C.Quoting)
    requires i <= end <= |s|
    decreases end - i
  {
    i < end ==> !Diverges(m, q, s[i]) && Smooth(s, i + 1, end, NextMode(m, s[i]), C.NextQuoting(q, s[i]))
  }

  /** Reading on up to `end`, both scanners call the same positions code. */
  predicate SameCode(s: string, i: nat, end: nat, m: Mode, q: C.Quoting)
    requires i <= end <= |s|
    decreases end - i
  {
    && (InCode(m) <==> q.quote.None?)
    && (i < end ==> SameCode(s, i + 1, end, NextMode(m, s[i]), C.NextQuoting(q, s[i])))
  }

  /** Reading one character keeps the correspondence, or the scanners differ at once on what is code. */
  lemma ReadOne(m: Mode, q: C.Quoting, c: char)
    requires Corresponds(m, q)
    ensures InCode(m) <==> q.quote.None?
    ensures Corresponds(NextMode(m, c), C.NextQuoting(q, c)) <==> !Diverges(m, q, c)
    ensures Diverges(m, q, c) ==> !(InCode(NextMode(m, c)) <==> C.NextQuoting(q, c).quote.None?)
  {
  }

  /**
    From corresponding states both scanners call the same positions code, up to any end, if and only if up to
    there no comment opens in code and no quote closes a string directly behind an escaped backslash.
   */
  lemma {:induction false} CodeAgreesIff(s: string, i: nat, end: nat, m: Mode, q: C.Quoting)
    requires i <= end <= |s| && Corresponds(m, q)
    ensures SameCode(s, i, end, m, q) <==> Smooth(s, i, end, m, q)
    decreases end - i
  {
    hide Corresponds, Diverges;
    if i < end {
      ReadOne(m, q, s[i]);
      if !Diverges(m, q, s[i]) {
        CodeAgreesIff(s, i + 1, end, NextMode(m, s[i]), C.NextQuoting(q, s[i]));
      }
    } else {
      ReadOne(m, q, ' ');
    }
  }

  /** The position lies before `end`, or there is none and `end` is that of the text. */
  predicate Covers(s: string, end: nat, r: int) {
    if r == -1 then end == |s| else r <= end
  }

  lemma {:induction false} SearchesAgree(s: string, i: nat, end: nat, m: Mode, q: C.Quoting, d: int)
    requires i <= end <= |s| && Corresponds(m, q) && Smooth(s, i, end, m, q)
    requires Covers(s, end, P.MatchFrom(s, i, m, d)) || Covers(s, end, C.FindFrom(s, i, q, d, '{', '}'))
    ensures P.MatchFrom(s, i, m, d) == C.FindFrom(s, i, q, d, '{', '}')
    decreases end - i
  {
    hide Corresponds, Diverges;
    if i < |s| {
      ReadOne(m, q, s[i]);
      if i < end && !Closing(m, d, s[i]) {
        SearchesAgree(s, i + 1, end, NextMode(m, s[i]), C.NextQuoting(q, s[i]), NextDepth(m, d, s[i]));
      }
    }
  }

  /**
    From every start the two scanners return the same position when the text is smooth up to the position that
    one of them returns, or up to its end when that one returns none.
   */
  lemma ScannersAgree(s: string, i: nat, end: nat)
    requires i <= end <= |s| && Smooth(s, i, end, Code, C.StartAt(s, i))
    requires Covers(s, end, P.MatchBrace(s, i)) || Covers(s, end, C.MatchBracket(s, i, '{', '}'))
    ensures P.MatchBrace(s, i) == C.MatchBracket(s, i, '{', '}')
  {
    SearchesAgree(s, i, end, Code, C.StartAt(s, i), 0);
  }

  // ---------- A condition on pairs of characters ----------

  predicate NoPair(s: string, a: char, b: char) {
    forall i :: 0 <= i < |s| - 1 ==> !PairAt(s, i, a, b)
  }

  predicate PairAt(s: string, i: nat, a: char, b: char)
    requires i + 1 < |s|
  {
    s[i] == a && s[i + 1] == b
  }

  /** No comment opens and no backslash is escaped by another one, anywhere in the text. */
  predicate Simple(s: string) {
    NoPair(s, '/', '/') && NoPair(s, '/', '*') && NoPair(s, '\\', '\\')
  }

  /** What the character before `i` tells of the states there. */
  predicate Behind(s: string, i: nat, m: Mode, q: C.Quoting)
    requires i <= |s|
  {
    match m
    case Slash => i > 0 && s[i - 1] == '/'
    case Str(x) => x != '\\' && !q.slash
    case Esc(x) => x != '\\' && i > 0 && s[i - 1] == '\\'
    case _ => true
  }

  lemma {:induction false} SimpleFrom(s: string, i: nat, end: nat, m: Mode, q: C.Quoting)
    requires i <= end <= |s| && Simple(s) && Behind(s, i, m, q)
    ensures Smooth(s, i, end, m, q)
    decreases end - i
  {
    if i < end {
      if i > 0 {
        assert !PairAt(s, i - 1, '/', '/') && !PairAt(s, i - 1, '/', '*') && !PairAt(s, i - 1, '\\', '\\');
      }
      SimpleFrom(s, i + 1, end, NextMode(m, s[i]), C.NextQuoting(q, s[i]));
    }
  }

  /** Text without comment signs and without doubled backslashes is smooth from every start to every end. */
  lemma SimpleIsSmooth(s: string, i: nat, end: nat)
    requires Simple(s) && i <= end <= |s|
    ensures Smooth(s, i, end, Code, C.StartAt(s, i))
  {
    SimpleFrom(s, i, end, Code, C.StartAt(s, i));
  }

  /** On such text the two scanners return the same position from every start, past its end included. */
  lemma SimpleTextsAgree(s: string, i: nat)
    requires Simple(s)
    ensures P.MatchBrace(s, i) == C.MatchBracket(s, i, '{', '}')
  {
    if i <= |s| {
      SimpleIsSmooth(s, i, |s|);
      ScannersAgree(s, i, |s|);
    }
  }

  // ---------- Texts on which the scanners differ ----------

  lemma LineCommentsDisagree()
    ensures P.MatchBrace("{//}\n}", 0) == 5 && C.MatchBracket("{//}\n}", 0, '{', '}') == 3
  {
    PrunerSkipsLine();
    var s, q := "{//}\n}", C.Quoting(None, false);
    assert C.FindFrom(s, 2, q, 1, '{', '}') == 3;
  }

  lemma PrunerSkipsLine()
    ensures P.MatchBrace("{//}\n}", 0) == 5
  {
    var s := "{//}\n}";
    assert P.MatchFrom(s, 4, Line, 1) == 5;
    assert P.MatchFrom(s, 2, Slash, 1) == 5;
  }

  lemma BlockCommentsDisagree()
    ensures P.MatchBrace("{/*}*/}", 0) == 6 && C.MatchBracket("{/*}*/}", 0, '{', '}') == 3
  {
    PrunerSkipsBlock();
    var s, q := "{/*}*/}", C.Quoting(None, false);
    assert C.FindFrom(s, 2, q, 1, '{', '}') == 3;
  }

  lemma PrunerSkipsBlock()
    ensures P.MatchBrace("{/*}*/}", 0) == 6
  {
    var s := "{/*}*/}";
    assert P.MatchFrom(s, 5, Star, 1) == 6;
    assert P.MatchFrom(s, 3, Block, 1) == 6;
    assert P.MatchFrom(s, 1, Code, 1) == 6;
  }

  lemma EscapedBackslashesDisagree()
    ensures P.MatchBrace("{'\\\\'}", 0) == 5 && C.MatchBracket("{'\\\\'}", 0, '{', '}') == -1
  {
    PrunerEndsLiteral();
    var s, open := "{'\\\\'}", C.Quoting(Some('\''), true);
    assert C.FindFrom(s, 4, open, 1, '{', '}') == -1;
    assert C.FindFrom(s, 2, C.Quoting(Some('\''), false), 1, '{', '}') == -1;
  }

  lemma PrunerEndsLiteral()
    ensures P.MatchBrace("{'\\\\'}", 0) == 5
  {
    var s := "{'\\\\'}";
    assert P.MatchFrom(s, 4, Str('\''), 1) == 5;
    assert P.MatchFrom(s, 2, Str('\''), 1) == 5;
  }
}
