/**
  What a call is, in terms of the text alone, and the round trip of collecting routes: whatever stands around a
  route call, the call is found and its route has the line, the method, the path and the arguments that were written.
 */
module RouteCalls {
  import opened TextSearch
  import opened CallScanner
  import opened CallExtraction
  import opened ArgumentSplit

  // ---------- A call in the text ----------

  /** All of `s[from..to]` is white space. */
  predicate Blank(s: string, from: nat, to: nat) {
    from <= to <= |s| && forall k :: from <= k < to ==> IsSpace(s[k])
  }

  /** `fastify.` or `app.` and the method stand at `i`, up to `end`. */
  predicate ReceiverAt(s: string, i: nat, verb: string, end: nat) {
    && i <= end <= |s|
    && (s[i..end] == "fastify." + verb || s[i..end] == "app." + verb)
  }

  /** Nothing, or a block `<...>` that its last character matches. */
  predicate GenericsAt(s: string, from: nat, to: nat) {
    from <= to <= |s| && (from == to || (s[from] == '<' && MatchBracket(s, from, '<', '>') == to - 1))
  }

  /**
    From `i` on there stand the receiver and the method, white space from `a` to `b`, nothing or a block up to `c`,
    white space, and at `open` a parenthesis whose match is at `close`.
   */
  predicate CallStands(s: string, i: nat, verb: string, a: nat, b: nat, c: nat, open: nat, close: nat) {
    && ReceiverAt(s, i, verb, a) && Blank(s, a, b) && GenericsAt(s, b, c) && Blank(s, c, open)
    && open < |s| && s[open] == '(' && MatchBracket(s, open, '(', ')') == close
  }

  lemma SpaceIsNoBracket()
    ensures !IsSpace('<') && !IsSpace('(')
  {
  }

  lemma ReceiverLengthIs(s: string, i: nat, verb: string, end: nat)
    ensures ReceiverAt(s, i, verb, end) ==> ReceiverLength(s, i, verb) == end - i > 0
    ensures ReceiverLength(s, i, verb) > 0 ==> ReceiverAt(s, i, verb, i + ReceiverLength(s, i, verb))
  {
    if ReceiverAt(s, i, verb, end) {
      assert s[i..end][0] == s[i];
      if s[i..end] == "fastify." + verb {
        assert StartsAt(s, i, "fastify." + verb);
      } else {
        assert s[i] == 'a' && StartsAt(s, i, "app." + verb);
        if StartsAt(s, i, "fastify." + verb) {
          assert s[i..i + |"fastify." + verb|][0] == 'f';
        }
      }
    }
  }

  /** White space, then nothing or a matched block, then white space and a parenthesis: where the scanner gets. */
  lemma CursorIs(s: string, a: nat, b: nat, c: nat, open: nat)
    requires Blank(s, a, b) && GenericsAt(s, b, c) && Blank(s, c, open) && open < |s| && s[open] == '('
    ensures SkipSpace(s, AfterGeneric(s, a), |s|) == open
  {
    hide MatchBracket, IsSpace;
    SpaceIsNoBracket();
    if b == c {
      SkipSpaceIs(s, a, |s|, open);
      SkipSpaceIs(s, open, |s|, open);
    } else {
      SkipSpaceIs(s, a, |s|, b);
      SkipSpaceIs(s, c, |s|, open);
    }
  }

  /** Conversely, a parenthesis that the scanner gets to has only that in front of it. */
  lemma CursorFrom(s: string, a: nat) returns (b: nat, c: nat)
    requires a <= |s|
    requires var open := SkipSpace(s, AfterGeneric(s, a), |s|); open < |s| && s[open] == '('
    ensures var open := SkipSpace(s, AfterGeneric(s, a), |s|);
            Blank(s, a, b) && GenericsAt(s, b, c) && Blank(s, c, open)
  {
    hide MatchBracket, IsSpace, SkipSpace;
    b := SkipSpace(s, a, |s|);
    c := AfterGeneric(s, a);
    SkippedIsSpace(s, a, |s|);
    SkippedIsSpace(s, c, |s|);
  }

  /**
    The scanner finds a call with a method at a position, with its parentheses at `open` and `close`, if and only if
    such a call stands there.
   */
  lemma CallWithIff(s: string, i: nat, verb: string, open: nat, close: nat)
    ensures CallWith(s, i, verb) == Some(Call(i, verb, open, close)) <==>
            exists a, b, c :: CallStands(s, i, verb, a, b, c, open, close)
  {
    hide MatchBracket, IsSpace, SkipSpace, AfterGeneric, ReceiverLength;
    if a, b, c :| CallStands(s, i, verb, a, b, c, open, close) {
      ReceiverLengthIs(s, i, verb, a);
      CursorIs(s, a, b, c, open);
    }
    if CallWith(s, i, verb) == Some(Call(i, verb, open, close)) {
      var a := i + ReceiverLength(s, i, verb);
      ReceiverLengthIs(s, i, verb, a);
      var b, c := CursorFrom(s, a);
      assert CallStands(s, i, verb, a, b, c, open, close);
    }
  }

  // ---------- The methods ----------

  predicate IsRouteMethod(verb: string) {
    verb == "get" || verb == "post" || verb == "put" || verb == "patch" || verb == "delete"
  }

  /** At most one of the methods can stand at a position. */
  lemma OneMethod(s: string, i: nat, verb: string, other: string, a: nat, b: nat)
    requires IsRouteMethod(verb) && IsRouteMethod(other)
    requires ReceiverAt(s, i, verb, a) && ReceiverAt(s, i, other, b)
    ensures verb == other
  {
    var n := if s[i..a] == "fastify." + verb then 8 else 4;
    assert s[i..a][0] == s[i] == s[i..b][0];
    assert s[i..a][n] == verb[0] && s[i..a][n + 1] == verb[1];
    assert s[i..b][n] == other[0] && s[i..b][n + 1] == other[1];
    assert s[i..a][n] == s[i..b][n] && s[i..a][n + 1] == s[i..b][n + 1];
  }

  lemma {:induction false} CallAtAmong(s: string, i: nat, verbs: seq<string>)
    ensures match CallAt(s, i, verbs)
            case None => forall v :: v in verbs ==> CallWith(s, i, v) == None
            case Some(call) => call.verb in verbs && CallWith(s, i, call.verb) == Some(call)
  {
    hide CallWith;
    if verbs != [] {
      assert verbs == [verbs[0]] + verbs[1..];
      if CallWith(s, i, verbs[0]).None? {
        CallAtAmong(s, i, verbs[1..]);
      } else {
        VerbOfCall(s, i, verbs[0]);
      }
    }
  }

  lemma VerbOfCall(s: string, i: nat, verb: string)
    requires CallWith(s, i, verb).Some?
    ensures CallWith(s, i, verb).value.verb == verb && CallWith(s, i, verb).value.at == i
  {
  }

  lemma RouteMethods(verb: string)
    ensures verb in ROUTE_METHODS <==> IsRouteMethod(verb)
  {
    var m := ROUTE_METHODS;
    assert m[0] == "get" && m[1] == "post" && m[2] == "put" && m[3] == "patch" && m[4] == "delete" && |m| == 5;
  }

  /** The call found at a position is the one that stands there with one of the five methods, if any does. */
  lemma CallAtIff(s: string, i: nat, call: Call)
    ensures CallAt(s, i, ROUTE_METHODS) == Some(call) <==>
            && call.at == i && IsRouteMethod(call.verb)
            && exists a, b, c :: CallStands(s, i, call.verb, a, b, c, call.open, call.close)
  {
    hide CallAt, CallWith, CallStands, IsRouteMethod;
    CallAtAmong(s, i, ROUTE_METHODS);
    RouteMethods(call.verb);
    CallWithIff(s, i, call.verb, call.open, call.close);
    var found := CallAt(s, i, ROUTE_METHODS);
    if found == Some(call) {
      VerbOfCall(s, i, call.verb);
    } else if found.Some? && call.at == i && IsRouteMethod(call.verb) &&
              exists a, b, c :: CallStands(s, i, call.verb, a, b, c, call.open, call.close) {
      RouteMethods(found.value.verb);
      VerbOfCall(s, i, found.value.verb);
      CallWithIff(s, i, found.value.verb, found.value.open, found.value.close);
      SameVerb(s, i, call, found.value);
      assert false;
    }
  }

  lemma SameVerb(s: string, i: nat, call: Call, other: Call)
    requires IsRouteMethod(call.verb) && IsRouteMethod(other.verb)
    requires exists a, b, c :: CallStands(s, i, call.verb, a, b, c, call.open, call.close)
    requires exists a, b, c :: CallStands(s, i, other.verb, a, b, c, other.open, other.close)
    ensures call.verb == other.verb
  {
    hide IsRouteMethod, Blank, GenericsAt, MatchBracket;
    var a, b, c :| CallStands(s, i, call.verb, a, b, c, call.open, call.close);
    var a', b', c' :| CallStands(s, i, other.verb, a', b', c', other.open, other.close);
    OneMethod(s, i, call.verb, other.verb, a, a');
  }

  // ---------- Matching does not look around ----------

  lemma {:induction false} FindInside(
    s: string, t: string, i: nat, k: nat, q: Quoting, d: int, open: char, close: char)
    requires i + |t| <= |s| && s[i..i + |t|] == t && k <= |t| && FindFrom(t, k, q, d, open, close) >= 0
    ensures FindFrom(s, i + k, q, d, open, close) == i + FindFrom(t, k, q, d, open, close)
    decreases |t| - k
  {
    hide NextQuoting, Level, Matches;
    assert s[i..i + |t|][k] == s[i + k];
    if !Matches(q, d, t[k], open, close) {
      FindInside(s, t, i, k + 1, NextQuoting(q, t[k]), CallScanner.Level(q, d, t[k], open, close), open, close);
    }
  }

  /** A bracket matched within a text keeps that match wherever the text stands, unless a backslash precedes it. */
  lemma MatchInside(s: string, t: string, i: nat, open: char, close: char)
    requires i + |t| <= |s| && s[i..i + |t|] == t && (i > 0 ==> s[i - 1] != '\\')
    requires MatchBracket(t, 0, open, close) >= 0
    ensures MatchBracket(s, i, open, close) == i + MatchBracket(t, 0, open, close)
  {
    hide FindFrom;
    FindInside(s, t, i, 0, CLEAN, 0, open, close);
  }

  // ---------- A call as it is written ----------

  /** Receiver and method, white space, a block or nothing, white space, and the arguments. */
  datatype Written = Written(receiver: string, verb: string, before: string, generics: string, after: string,
                             args: string)
  {
    function Head(): string {
      receiver + verb
    }
    function Arguments(): string {
      "(" + args + ")"
    }
    function Text(): string {
      Head() + before + generics + after + Arguments()
    }
    /** Where the head, the white space and the block end, and where the parentheses are, for a call at `i`. */
    function HeadEnd(i: nat): nat {
      i + |Head()|
    }
    function BlockStart(i: nat): nat {
      HeadEnd(i) + |before|
    }
    function BlockEnd(i: nat): nat {
      BlockStart(i) + |generics|
    }
    function Open(i: nat): nat {
      BlockEnd(i) + |after|
    }
    function Close(i: nat): nat {
      Open(i) + |args| + 1
    }
    function Found(i: nat): Call {
      Call(i, verb, Open(i), Close(i))
    }
    predicate Proper() {
      && (receiver == "fastify." || receiver == "app.") && IsRouteMethod(verb)
      && (forall c :: c in before ==> IsSpace(c)) && (forall c :: c in after ==> IsSpace(c))
      && (generics == "" || (generics[0] == '<' && MatchBracket(generics, 0, '<', '>') == |generics| - 1))
      && MatchBracket(Arguments(), 0, '(', ')') == |args| + 1
    }
  }

  /** The text stands in `s` at position `i`. */
  predicate PlacedAt(s: string, i: nat, text: string) {
    i + |text| <= |s| && s[i..i + |text|] == text
  }

  lemma PlacedParts(s: string, i: nat, a: string, b: string)
    requires PlacedAt(s, i, a + b)
    ensures PlacedAt(s, i, a) && PlacedAt(s, i + |a|, b)
  {
    assert s[i..i + |a|] == s[i..i + |a + b|][..|a|];
    assert s[i + |a|..i + |a| + |b|] == s[i..i + |a + b|][|a|..];
  }

  lemma WrittenParts(s: string, i: nat, w: Written)
    requires PlacedAt(s, i, w.Text())
    ensures PlacedAt(s, i, w.Head()) && PlacedAt(s, w.HeadEnd(i), w.before)
    ensures PlacedAt(s, w.BlockStart(i), w.generics) && PlacedAt(s, w.BlockEnd(i), w.after)
    ensures PlacedAt(s, w.Open(i), w.Arguments())
  {
    hide PlacedAt, Written.Head, Written.Arguments;
    PlacedParts(s, i, w.Head() + w.before + w.generics + w.after, w.Arguments());
    PlacedParts(s, i, w.Head() + w.before + w.generics, w.after);
    PlacedParts(s, i, w.Head() + w.before, w.generics);
    PlacedParts(s, i, w.Head(), w.before);
  }

  lemma BlankPart(s: string, i: nat, part: string)
    requires PlacedAt(s, i, part) && forall c :: c in part ==> IsSpace(c)
    ensures Blank(s, i, i + |part|)
    ensures part != "" ==> s[i + |part| - 1] != '\\'
  {
    assert !IsSpace('\\');
    hide IsSpace;
    forall k | i <= k < i + |part| ensures s[k] == part[k - i] && s[k] in part {
      assert s[i..i + |part|][k - i] == s[k];
    }
  }

  lemma LastOf(s: string, i: nat, part: string)
    requires PlacedAt(s, i, part) && part != ""
    ensures s[i + |part| - 1] == part[|part| - 1]
  {
    assert s[i..i + |part|][|part| - 1] == s[i + |part| - 1];
  }

  lemma HeadEndsInLetter(w: Written)
    requires w.Proper()
    ensures w.Head() != "" && w.Head()[|w.Head()| - 1] != '\\'
  {
    hide MatchBracket, IsSpace;
    assert w.Head()[|w.Head()| - 1] == w.verb[|w.verb| - 1];
  }

  lemma GenericsPart(s: string, i: nat, w: Written)
    requires w.Proper() && PlacedAt(s, i, w.Text())
    ensures GenericsAt(s, w.BlockStart(i), w.BlockEnd(i))
    ensures w.BlockEnd(i) > 0 && w.BlockEnd(i) <= |s| && s[w.BlockEnd(i) - 1] != '\\'
  {
    WrittenParts(s, i, w);
    HeadEndsInLetter(w);
    LastOf(s, i, w.Head());
    BlankPart(s, w.HeadEnd(i), w.before);
    hide MatchBracket, IsSpace, Written.Text, Written.Head, IsRouteMethod, PlacedAt;
    if w.generics != "" {
      GenericsStand(s, w.BlockStart(i), w.generics);
    }
  }

  lemma GenericsStand(s: string, i: nat, generics: string)
    requires PlacedAt(s, i, generics) && (i > 0 ==> s[i - 1] != '\\')
    requires generics != "" && generics[0] == '<' && MatchBracket(generics, 0, '<', '>') == |generics| - 1
    ensures GenericsAt(s, i, i + |generics|) && s[i + |generics| - 1] == '>'
  {
    MatchInside(s, generics, i, '<', '>');
    LastOf(s, i, generics);
    hide MatchBracket;
    assert s[i..i + |generics|][0] == s[i];
  }

  lemma ArgumentsPart(s: string, i: nat, w: Written)
    requires w.Proper() && PlacedAt(s, i, w.Text())
    ensures w.Close(i) < |s| && s[w.Open(i)] == '(' && MatchBracket(s, w.Open(i), '(', ')') == w.Close(i)
    ensures s[w.Open(i) + 1..w.Close(i)] == w.args
  {
    WrittenParts(s, i, w);
    BeforeArguments(s, i, w);
    hide MatchBracket, IsSpace, Written.Text, Written.Head, IsRouteMethod, PlacedAt;
    ArgumentsStand(s, w.Open(i), w.args);
  }

  lemma BeforeArguments(s: string, i: nat, w: Written)
    requires w.Proper() && PlacedAt(s, i, w.Text())
    ensures 0 < w.Open(i) <= |s| && s[w.Open(i) - 1] != '\\'
  {
    WrittenParts(s, i, w);
    GenericsPart(s, i, w);
    hide MatchBracket, Written.Text, Written.Head, Written.Arguments, IsRouteMethod;
    BlankPart(s, w.BlockEnd(i), w.after);
    hide PlacedAt, IsSpace;
  }

  lemma ArgumentsStand(s: string, i: nat, args: string)
    requires PlacedAt(s, i, "(" + args + ")") && 0 < i <= |s| && s[i - 1] != '\\'
    requires MatchBracket("(" + args + ")", 0, '(', ')') == |args| + 1
    ensures i + |args| + 1 < |s| && s[i] == '(' && MatchBracket(s, i, '(', ')') == i + |args| + 1
    ensures s[i + 1..i + |args| + 1] == args
  {
    hide MatchBracket;
    Between(s, i, args);
    MatchInside(s, "(" + args + ")", i, '(', ')');
  }

  lemma Between(s: string, i: nat, args: string)
    requires PlacedAt(s, i, "(" + args + ")")
    ensures s[i] == '(' && s[i + 1..i + |args| + 1] == args
  {
    PlacedParts(s, i, "(" + args, ")");
    PlacedParts(s, i, "(", args);
    assert s[i..i + 1][0] == s[i];
  }

  /** A written call stands wherever its text does. */
  lemma WrittenStands(s: string, i: nat, w: Written)
    requires w.Proper() && PlacedAt(s, i, w.Text())
    ensures CallStands(s, i, w.verb, w.HeadEnd(i), w.BlockStart(i), w.BlockEnd(i), w.Open(i), w.Close(i))
  {
    WrittenParts(s, i, w);
    GenericsPart(s, i, w);
    ArgumentsPart(s, i, w);
    BlankPart(s, w.HeadEnd(i), w.before);
    BlankPart(s, w.BlockEnd(i), w.after);
    hide MatchBracket, IsSpace, IsRouteMethod, Written.Text, Blank, GenericsAt;
  }

  // ---------- The route of a written call ----------

  function UpperMethod(verb: string): string {
    if verb == "get" then "GET"
    else if verb == "post" then "POST"
    else if verb == "put" then "PUT"
    else if verb == "patch" then "PATCH"
    else "DELETE"
  }

  lemma UppercaseIs(verb: string)
    requires IsRouteMethod(verb)
    ensures Uppercase(verb) == UpperMethod(verb)
  {
  }

  function LineBreaks(s: string, n: nat): set<int>
    requires n <= |s|
  {
    set p | 0 <= p < n && s[p] == '\n'
  }

  lemma LineBreaksStep(s: string, n: nat)
    requires 0 < n <= |s|
    ensures |LineBreaks(s, n)| == |LineBreaks(s, n - 1)| + (if s[n - 1] == '\n' then 1 else 0)
  {
    assert LineBreaks(s, n) == LineBreaks(s, n - 1) + if s[n - 1] == '\n' then {n - 1} else {};
  }

  lemma CountStep(s: string, n: nat)
    requires 0 < n <= |s|
    ensures CountLineBreaks(s[..n]) == CountLineBreaks(s[..n - 1]) + (if s[n - 1] == '\n' then 1 else 0)
  {
    var last := [s[n - 1]];
    assert last[1..] == "" && CountLineBreaks(last) == if s[n - 1] == '\n' then 1 else 0;
    hide CountLineBreaks;
    LineBreaksConcat(s[..n - 1], last);
    assert s[..n] == s[..n - 1] + last;
  }

  lemma {:induction false} LineBreaksCounted(s: string, n: nat)
    requires n <= |s|
    ensures CountLineBreaks(s[..n]) == |LineBreaks(s, n)|
  {
    if n == 0 {
      assert s[..0] == "" && LineBreaks(s, 0) == {};
    } else {
      hide CountLineBreaks, LineBreaks;
      LineBreaksCounted(s, n - 1);
      LineBreaksStep(s, n);
      CountStep(s, n);
    }
  }

  lemma EndsInCons(piece: string, rest: seq<string>, p: nat)
    requires rest != []
    ensures EndsPiece([piece] + rest, p) <==> p == |piece| || (p > |piece| && EndsPiece(rest, p - |piece| - 1))
  {
    var pieces := [piece] + rest;
    assert pieces[..1] == [piece] && Join([piece]) == piece;
    forall k | 0 < k < |rest|
      ensures |Join(pieces[..k + 1])| == |piece| + 1 + |Join(rest[..k])|
    {
      assert pieces[..k + 1] == [piece] + rest[..k];
      JoinCons(piece, rest[..k]);
    }
    if k :| 0 < k < |pieces| && |Join(pieces[..k])| == p {
      if k > 1 {
        assert |Join(pieces[..(k - 1) + 1])| == |piece| + 1 + |Join(rest[..k - 1])|;
      }
    }
    if p > |piece| && EndsPiece(rest, p - |piece| - 1) {
      var k :| 0 < k < |rest| && |Join(rest[..k])| == p - |piece| - 1;
      assert |Join(pieces[..k + 1])| == p;
    }
  }

  /** The pieces written on lines of their own: their text with the commas that separate them replaced. */
  ghost predicate OnLines(lines: string, pieces: seq<string>) {
    && |lines| == |Join(pieces)|
    && forall p :: 0 <= p < |lines| ==> lines[p] == if EndsPiece(pieces, p) then '\n' else Join(pieces)[p]
  }

  lemma {:induction false} JoinedOnLines(pieces: seq<string>)
    ensures OnLines(JoinLines(pieces), pieces)
  {
    hide EndsPiece;
    if |pieces| == 1 {
      forall p: nat ensures !EndsPiece(pieces, p) {
        NoEndInOne(pieces, p);
      }
    } else if |pieces| > 1 {
      var piece, rest := pieces[0], pieces[1..];
      assert pieces == [piece] + rest;
      JoinedOnLines(rest);
      forall p | 0 <= p < |Join(pieces)|
        ensures JoinLines(pieces)[p] == if EndsPiece(pieces, p) then '\n' else Join(pieces)[p]
      {
        EndsInCons(piece, rest, p);
        if p < |piece| {
          assert JoinLines(pieces)[p] == piece[p] == Join(pieces)[p];
        } else if p > |piece| {
          assert JoinLines(pieces)[p] == JoinLines(rest)[p - |piece| - 1];
          assert Join(pieces)[p] == Join(rest)[p - |piece| - 1];
        }
      }
    }
  }

  lemma NoEndInOne(pieces: seq<string>, p: nat)
    requires |pieces| == 1
    ensures !EndsPiece(pieces, p)
  {
  }

  /** A call of one of the five methods stands in the text. */
  ghost predicate StandsIn(s: string, call: Call) {
    IsRouteMethod(call.verb) && exists a, b, c :: CallStands(s, call.at, call.verb, a, b, c, call.open, call.close)
  }

  /** A call that no earlier one spans is visited. */
  lemma VisitedUnlessSpanned(s: string, call: Call) returns (k: nat)
    requires StandsIn(s, call)
    requires forall other :: StandsIn(s, other) && other.at < call.at ==> other.close < call.at
    ensures k < |Calls(s, 0)| && Calls(s, 0)[k] == call
  {
    hide Calls, CallStands, IsRouteMethod, CallAt;
    CallAtIff(s, call.at, call);
    CallsInOrder(s, 0);
    CallsComplete(s, 0, call.at);
    k :| 0 <= k < |Calls(s, 0)| && Calls(s, 0)[k].at <= call.at <= Calls(s, 0)[k].close;
    CallAtIff(s, Calls(s, 0)[k].at, Calls(s, 0)[k]);
  }

  lemma {:induction false} RecordedInRoutes(s: string, calls: seq<Call>, k: nat)
    requires forall j :: 0 <= j < |calls| ==> calls[j].at < calls[j].open < calls[j].close < |s|
    requires k < |calls| && RouteOf(s, calls[k]).Some?
    ensures RouteOf(s, calls[k]).value in RoutesOf(s, calls)
    decreases |calls|
  {
    hide RouteOf;
    if k > 0 {
      RecordedInRoutes(s, calls[1..], k - 1);
    }
  }

  /** The first argument is a literal of that text that is not empty, with white space in front. */
  ghost predicate BeginsWithLiteral(argument: string, path: string) {
    path != "" && exists space, quote, tail :: LiteralOf(argument, space, quote, path, tail)
  }

  predicate LiteralOf(argument: string, space: string, quote: char, path: string, tail: string) {
    && argument == space + [quote] + path + [quote] + tail
    && (forall c :: c in space ==> IsSpace(c)) && IsQuote(quote) && LiteralBody(quote, path)
  }

  /** What a route says of a call that begins at `i` with that method and those arguments. */
  ghost predicate Describes(route: Route, s: string, i: nat, verb: string, path: string, arguments: seq<string>)
    requires i <= |s| && arguments != []
  {
    && route.line == |LineBreaks(s, i)| + 1 && route.verb == UpperMethod(verb) && route.path == path
    && route.options == (if |arguments| > 1 then arguments[1] else "")
    && OnLines(route.handler, arguments[1..])
  }

  lemma RouteOfIs(s: string, call: Call, arguments: seq<string>, path: string)
    requires call.at < call.open < call.close < |s| && path != ""
    requires arguments == Split(Arguments(s, call), CLEAN, FLAT) && ReadLiteral(Some(arguments[0])) == Some(path)
    ensures RouteOf(s, call) == Some(Route(
              LineOf(s, call.at), Uppercase(call.verb), path,
              if |arguments| > 1 then arguments[1] else "", JoinLines(arguments[1..])))
  {
    hide Split, ReadLiteral, LineOf, Uppercase, JoinLines, Arguments;
  }

  lemma RouteOfArguments(s: string, call: Call, arguments: seq<string>, path: string)
    requires call.at < call.open < call.close < |s| && IsRouteMethod(call.verb)
    requires Canonical(arguments) && Arguments(s, call) == Join(arguments) && BeginsWithLiteral(arguments[0], path)
    ensures RouteOf(s, call).Some? && Describes(RouteOf(s, call).value, s, call.at, call.verb, path, arguments)
  {
    hide IsSpace, LiteralBody, Split, ReadLiteral, Canonical, Join, Uppercase, CountLineBreaks, JoinLines, OnLines,
      LineBreaks, UpperMethod, Arguments, RouteOf;
    SplitCharacterized(Join(arguments), arguments);
    ReadsLiteral(arguments[0], path);
    RouteOfIs(s, call, arguments, path);
    UppercaseIs(call.verb);
    LineBreaksCounted(s, call.at);
    JoinedOnLines(arguments[1..]);
  }

  lemma ReadsLiteral(argument: string, path: string)
    requires BeginsWithLiteral(argument, path)
    ensures ReadLiteral(Some(argument)) == Some(path)
  {
    hide IsSpace, LiteralBody, ReadLiteral;
    var space, quote, tail :| LiteralOf(argument, space, quote, path, tail);
    LiteralReadsBack(space, quote, path, tail);
  }

  lemma RouteOfWritten(s: string, i: nat, w: Written, arguments: seq<string>, path: string)
    requires w.Proper() && PlacedAt(s, i, w.Text())
    requires Canonical(arguments) && w.args == Join(arguments) && BeginsWithLiteral(arguments[0], path)
    ensures i < w.Open(i) < w.Close(i) < |s|
    ensures RouteOf(s, w.Found(i)).Some? && Describes(RouteOf(s, w.Found(i)).value, s, i, w.verb, path, arguments)
  {
    ArgumentsPart(s, i, w);
    HeadEndsInLetter(w);
    ProperMethod(w);
    hide Written.Text, Written.Proper, Written.Head, Canonical, Join, BeginsWithLiteral, Describes, RouteOf,
      IsRouteMethod, MatchBracket, PlacedAt;
    RouteOfArguments(s, w.Found(i), arguments, path);
  }

  lemma ProperMethod(w: Written)
    requires w.Proper()
    ensures IsRouteMethod(w.verb)
  {
  }

  /**
    The round trip: wherever a proper call is written whose first argument is a literal that is not empty, if no
    earlier call spans it, its route is collected, with the line and the method in capitals, the literal as its
    path, the second argument as its options, and all arguments from the second on, on lines of their own, as its
    handler.
   */
  lemma WrittenRouteCollected(s: string, i: nat, w: Written, arguments: seq<string>, path: string)
    requires w.Proper() && PlacedAt(s, i, w.Text())
    requires Canonical(arguments) && w.args == Join(arguments) && BeginsWithLiteral(arguments[0], path)
    requires forall other :: StandsIn(s, other) && other.at < i ==> other.close < i
    ensures exists route :: route in RoutesFrom(s, 0) && Describes(route, s, i, w.verb, path, arguments)
  {
    hide Written.Text, Written.Proper, Canonical, CallStands, BeginsWithLiteral, RoutesFrom, Calls, RouteOf, Describes,
      PlacedAt;
    WrittenStands(s, i, w);
    ProperMethod(w);
    assert StandsIn(s, w.Found(i));
    var k := VisitedUnlessSpanned(s, w.Found(i));
    RoutesAreOfCalls(s, 0);
    RouteOfWritten(s, i, w, arguments, path);
    RecordedInRoutes(s, Calls(s, 0), k);
  }
}
