/**
  The route scanner of server/scripts/test-admin-route-guards.ts: bracket matching, argument splitting
  and string reading with a quote rule that looks at the previous character, and the loop that jumps
  from one call to the next.
 */
module CallScanner {
  import opened TextSearch

  // ---------- Quotes ----------

  /** The open quote, if any, and whether the previous character was a backslash. */
  datatype Quoting = Quoting(quote: Option<char>, slash: bool)

  function NextQuoting(q: Quoting, c: char): Quoting {
    match q.quote
    case Some(x) => Quoting(if c == x && !q.slash then None else Some(x), c == '\\')
    case None => Quoting(if IsQuote(c) then Some(c) else None, c == '\\')
  }

  /** The character is neither quoted nor a quote. */
  predicate IsCode(q: Quoting, c: char) {
    q.quote.None? && !IsQuote(c)
  }

  function StartAt(s: string, i: nat): Quoting
    requires i <= |s|
  {
    Quoting(None, i > 0 && s[i - 1] == '\\')
  }

  // ---------- findMatching ----------

  function NextLevel(d: int, c: char, open: char, close: char): int {
    d + (if c == open then 1 else 0) - (if c == close then 1 else 0)
  }

  predicate Matches(q: Quoting, d: int, c: char, open: char, close: char) {
    IsCode(q, c) && c == close && NextLevel(d, c, open, close) == 0
  }

  function Level(q: Quoting, d: int, c: char, open: char, close: char): int {
    if IsCode(q, c) then NextLevel(d, c, open, close) else d
  }

  function FindFrom(s: string, i: nat, q: Quoting, d: int, open: char, close: char): (r: int)
    requires i <= |s|
    ensures r == -1 || (i <= r < |s| && s[r] == close)
    decreases |s| - i
  {
    if i == |s| then -1
    else if Matches(q, d, s[i], open, close) then i
    else FindFrom(s, i + 1, NextQuoting(q, s[i]), Level(q, d, s[i], open, close), open, close)
  }

  function MatchBracket(s: string, index: nat, open: char, close: char): (r: int)
    ensures r == -1 || (index <= r < |s| && s[r] == close)
  {
    if index > |s| then -1 else FindFrom(s, index, StartAt(s, index), 0, open, close)
  }

  method FindMatching(source: string, index: nat, open: char, close: char) returns (r: int)
    ensures r == MatchBracket(source, index, open, close)
  {
    var depth := 0;
    var quote: Option<char> := None;
    var i := index;
    while i < |source|
      invariant index <= |source| ==> index <= i <= |source|
      invariant index <= |source| ==>
                  MatchBracket(source, index, open, close) ==
                  FindFrom(source, i, Quoting(quote, i > 0 && source[i - 1] == '\\'), depth, open, close)
    {
      var c := source[i];
      var previousIsBackslash := i > 0 && source[i - 1] == '\\';
      if quote.Some? {
        if c == quote.value && !previousIsBackslash { quote := None; }
        i := i + 1;
        continue;
      }
      if c == '"' || c == '\'' || c == '`' {
        quote := Some(c);
        i := i + 1;
        continue;
      }
      if c == open { depth := depth + 1; }
      if c == close {
        depth := depth - 1;
        if depth == 0 { return i; }
      }
      i := i + 1;
    }
    return -1;
  }

  // ---------- skipWhitespace, skipGenericBlock ----------

  method SkipWhitespace(source: string, index: nat) returns (r: nat)
    requires index <= |source|
    ensures r == SkipSpace(source, index, |source|)
  {
    r := index;
    while r < |source| && IsSpace(source[r])
      invariant index <= r <= |source|
      invariant SkipSpace(source, r, |source|) == SkipSpace(source, index, |source|)
    {
      r := r + 1;
    }
  }

  /** Behind `<...>`, when such a block starts here and ends. */
  function AfterGeneric(s: string, index: nat): (r: nat)
    requires index <= |s|
    ensures index <= r <= |s|
  {
    var at := SkipSpace(s, index, |s|);
    if at < |s| && s[at] == '<' then
      var end := MatchBracket(s, at, '<', '>');
      if end == -1 then at else end + 1
    else at
  }

  method SkipGenericBlock(source: string, index: nat) returns (r: nat)
    requires index <= |source|
    ensures r == AfterGeneric(source, index)
  {
    hide SkipSpace, IsSpace;
    var at := SkipWhitespace(source, index);
    if !(at < |source| && source[at] == '<') {
      return at;
    }
    var depth := 0;
    var quote: Option<char> := None;
    var i := at;
    while i < |source|
      invariant at <= i <= |source|
      invariant MatchBracket(source, at, '<', '>') ==
                FindFrom(source, i, Quoting(quote, i > 0 && source[i - 1] == '\\'), depth, '<', '>')
    {
      var c := source[i];
      var previousIsBackslash := i > 0 && source[i - 1] == '\\';
      if quote.Some? {
        if c == quote.value && !previousIsBackslash { quote := None; }
        i := i + 1;
        continue;
      }
      if c == '"' || c == '\'' || c == '`' {
        quote := Some(c);
        i := i + 1;
        continue;
      }
      if c == '<' { depth := depth + 1; }
      if c == '>' {
        depth := depth - 1;
        if depth == 0 { return i + 1; }
      }
      i := i + 1;
    }
    return at;
  }

  // ---------- splitTopLevelArgs ----------

  datatype Depths = Depths(paren: int, brace: int, bracket: int, angle: int)

  const FLAT := Depths(0, 0, 0, 0)
  const CLEAN := Quoting(None, false)

  function NextDepths(d: Depths, c: char): Depths {
    if c == '(' then d.(paren := d.paren + 1)
    else if c == ')' then d.(paren := d.paren - 1)
    else if c == '{' then d.(brace := d.brace + 1)
    else if c == '}' then d.(brace := d.brace - 1)
    else if c == '[' then d.(bracket := d.bracket + 1)
    else if c == ']' then d.(bracket := d.bracket - 1)
    else if c == '<' then d.(angle := d.angle + 1)
    else if c == '>' then d.(angle := if d.angle - 1 > 0 then d.angle - 1 else 0)
    else d
  }

  function StepDepths(q: Quoting, d: Depths, c: char): Depths {
    if IsCode(q, c) then NextDepths(d, c) else d
  }

  predicate Separates(q: Quoting, d: Depths, c: char) {
    q.quote.None? && c == ',' && d == FLAT
  }

  /** The pieces of the text, given the state in which the scanner reaches it. */
  function Split(t: string, q: Quoting, d: Depths): (pieces: seq<string>)
    ensures |pieces| >= 1
    decreases t
  {
    if t == "" then [""]
    else
      var more := Split(t[1..], NextQuoting(q, t[0]), StepDepths(q, d, t[0]));
      if Separates(q, d, t[0]) then [""] + more else [[t[0]] + more[0]] + more[1..]
  }

  /** The first piece grown at the front. */
  function Grow(head: string, pieces: seq<string>): seq<string>
    requires |pieces| >= 1
  {
    [head + pieces[0]] + pieces[1..]
  }

  /** The same, from position `i` of a text whose current piece began at `start`. */
  function SplitFrom(s: string, start: nat, i: nat, q: Quoting, d: Depths): seq<string>
    requires start <= i <= |s|
    decreases |s| - i
  {
    if i == |s| then [s[start..]]
    else
      var q1, d1 := NextQuoting(q, s[i]), StepDepths(q, d, s[i]);
      if Separates(q, d, s[i]) then [s[start..i]] + SplitFrom(s, i + 1, i + 1, q1, d1)
      else SplitFrom(s, start, i + 1, q1, d1)
  }

  lemma {:induction false} SplitFromIsSplit(s: string, start: nat, i: nat, q: Quoting, d: Depths)
    requires start <= i <= |s|
    ensures SplitFrom(s, start, i, q, d) == Grow(s[start..i], Split(s[i..], q, d))
    decreases |s| - i
  {
    if i == |s| {
      assert s[start..i] + "" == s[start..];
    } else {
      var q1, d1 := NextQuoting(q, s[i]), StepDepths(q, d, s[i]);
      var more := Split(s[i + 1..], q1, d1);
      assert s[i..][1..] == s[i + 1..];
      if Separates(q, d, s[i]) {
        SplitFromIsSplit(s, i + 1, i + 1, q1, d1);
        assert s[i + 1..i + 1] + more[0] == more[0];
        assert s[start..i] + "" == s[start..i];
      } else {
        SplitFromIsSplit(s, start, i + 1, q1, d1);
        assert s[start..i + 1] + more[0] == s[start..i] + ([s[i]] + more[0]);
      }
    }
  }

  method SplitTopLevelArgs(source: string) returns (args: seq<string>)
    ensures args == Split(source, CLEAN, FLAT)
  {
    args := [];
    var start := 0;
    var parenDepth, braceDepth, bracketDepth, angleDepth := 0, 0, 0, 0;
    var quote: Option<char> := None;
    var i := 0;
    while i < |source|
      invariant 0 <= start <= i <= |source|
      invariant args + SplitFrom(source, start, i, Quoting(quote, i > 0 && source[i - 1] == '\\'),
                                 Depths(parenDepth, braceDepth, bracketDepth, angleDepth)) ==
                SplitFrom(source, 0, 0, CLEAN, FLAT)
    {
      var c := source[i];
      var previousIsBackslash := i > 0 && source[i - 1] == '\\';
      i := i + 1;
      if quote.Some? {
        if c == quote.value && !previousIsBackslash { quote := None; }
        continue;
      }
      if c == '"' || c == '\'' || c == '`' {
        quote := Some(c);
        continue;
      }
      if c == '(' { parenDepth := parenDepth + 1; }
      else if c == ')' { parenDepth := parenDepth - 1; }
      else if c == '{' { braceDepth := braceDepth + 1; }
      else if c == '}' { braceDepth := braceDepth - 1; }
      else if c == '[' { bracketDepth := bracketDepth + 1; }
      else if c == ']' { bracketDepth := bracketDepth - 1; }
      else if c == '<' { angleDepth := angleDepth + 1; }
      else if c == '>' { angleDepth := if angleDepth - 1 > 0 then angleDepth - 1 else 0; }
      else if c == ',' && parenDepth == 0 && braceDepth == 0 && bracketDepth == 0 && angleDepth == 0 {
        args := args + [source[start..i - 1]];
        start := i;
      }
    }
    args := args + [source[start..]];
    SplitFromIsSplit(source, 0, 0, CLEAN, FLAT);
    assert source[0..] == source;
    assert "" + Split(source, CLEAN, FLAT)[0] == Split(source, CLEAN, FLAT)[0];
  }

  // ---------- readStringLiteral ----------

  /** The first unescaped quote at or after `i`, or -1. */
  function LiteralEnd(s: string, quote: char, i: nat): (r: int)
    requires 1 <= i <= |s|
    ensures r == -1 || i <= r < |s|
    decreases |s| - i
  {
    if i == |s| then -1
    else if s[i] == quote && s[i - 1] != '\\' then i
    else LiteralEnd(s, quote, i + 1)
  }

  function ReadLiteral(raw: Option<string>): Option<string> {
    if raw.None? || Trim(raw.value) == "" then None else
    var source := Trim(raw.value);
    if !IsQuote(source[0]) then None else
    var end := LiteralEnd(source, source[0], 1);
    if end == -1 then None else Some(source[1..end])
  }

  method ReadStringLiteral(raw: Option<string>) returns (r: Option<string>)
    ensures r == ReadLiteral(raw)
  {
    if raw.None? || Trim(raw.value) == "" {
      return None;
    }
    var source := Trim(raw.value);
    var quote := source[0];
    if quote != '"' && quote != '\'' && quote != '`' {
      return None;
    }
    var value := "";
    var i := 1;
    while i < |source|
      invariant 1 <= i <= |source|
      invariant value == source[1..i]
      invariant LiteralEnd(source, quote, i) == LiteralEnd(source, quote, 1)
    {
      if source[i] == quote && source[i - 1] != '\\' {
        return Some(value);
      }
      value := value + [source[i]];
      i := i + 1;
    }
    return None;
  }

  // ---------- matchRouteReceiver, collectRoutes ----------

  const ROUTE_METHODS: seq<string> := ["get", "post", "put", "patch", "delete"]

  predicate StartsAt(s: string, i: nat, prefix: string) {
    i + |prefix| <= |s| && s[i..i + |prefix|] == prefix
  }

  function ReceiverLength(s: string, i: nat, verb: string): (n: nat)
    ensures i + n <= |s| || n == 0
  {
    if StartsAt(s, i, "fastify." + verb) then |"fastify." + verb|
    else if StartsAt(s, i, "app." + verb) then |"app." + verb|
    else 0
  }

  /** A call found at a position: its method and the positions of its parentheses. */
  datatype Call = Call(at: nat, verb: string, open: nat, close: nat)

  function CallWith(s: string, i: nat, verb: string): (r: Option<Call>)
    ensures r.Some? ==>
              && r.value.at == i < r.value.open < r.value.close < |s|
              && s[r.value.open] == '('
              && r.value.close == MatchBracket(s, r.value.open, '(', ')')
  {
    var n := ReceiverLength(s, i, verb);
    if n == 0 then None else
    var cursor := SkipSpace(s, AfterGeneric(s, i + n), |s|);
    if !(cursor < |s| && s[cursor] == '(') then None else
    var end := MatchBracket(s, cursor, '(', ')');
    if end < 0 then None else Some(Call(i, verb, cursor, end))
  }

  function CallAt(s: string, i: nat, verbs: seq<string>): (r: Option<Call>)
    ensures r.Some? ==>
              && r.value.at == i < r.value.open < r.value.close < |s|
              && s[r.value.open] == '('
              && r.value.close == MatchBracket(s, r.value.open, '(', ')')
  {
    if verbs == [] then None
    else if CallWith(s, i, verbs[0]).Some? then CallWith(s, i, verbs[0])
    else CallAt(s, i, verbs[1..])
  }

  /** The calls that the jumping loop visits from position `i` on. */
  function Calls(s: string, i: nat): seq<Call>
    decreases |s| - i
  {
    if i >= |s| then []
    else match CallAt(s, i, ROUTE_METHODS)
      case None => Calls(s, i + 1)
      case Some(call) => [call] + Calls(s, call.close + 1)
  }

  datatype Route = Route(line: nat, verb: string, path: string, options: string, handler: string)

  function CountLineBreaks(s: string): nat {
    if s == "" then 0 else (if s[0] == '\n' then 1 else 0) + CountLineBreaks(s[1..])
  }

  function LineOf(s: string, i: nat): nat
    requires i <= |s|
  {
    CountLineBreaks(s[..i]) + 1
  }

  function Upper(c: char): char {
    if 'a' <= c <= 'z' then 'A' + (c - 'a') else c
  }

  function JoinLines(pieces: seq<string>): string {
    if pieces == [] then "" else if |pieces| == 1 then pieces[0] else pieces[0] + "\n" + JoinLines(pieces[1..])
  }

  function Uppercase(verb: string): string {
    seq(|verb|, k requires 0 <= k < |verb| => Upper(verb[k]))
  }

  /** The text between the parentheses of a call. */
  function Arguments(s: string, call: Call): string
    requires call.open < call.close < |s|
  {
    s[call.open + 1..call.close]
  }

  /** A call is recorded when its first argument is a string literal that is not empty. */
  function RouteOf(s: string, call: Call): Option<Route>
    requires call.at < call.open < call.close < |s|
  {
    var args := Split(Arguments(s, call), CLEAN, FLAT);
    match ReadLiteral(Some(args[0]))
    case None => None
    case Some(path) =>
      if path == "" then None
      else Some(Route(
        LineOf(s, call.at), Uppercase(call.verb), path,
        if |args| > 1 then args[1] else "", JoinLines(args[1..])))
  }

  function Recorded(s: string, call: Call): seq<Route>
    requires call.at < call.open < call.close < |s|
  {
    match RouteOf(s, call)
    case None => []
    case Some(route) => [route]
  }

  function RoutesFrom(s: string, i: nat): seq<Route>
    decreases |s| - i
  {
    if i >= |s| then []
    else match CallAt(s, i, ROUTE_METHODS)
      case None => RoutesFrom(s, i + 1)
      case Some(call) =>
        Recorded(s, call) + RoutesFrom(s, call.close + 1)
  }

  /** The loop over the methods at one position: the first one that completes a call there. */
  method FindCall(source: string, index: nat) returns (r: Option<Call>)
    ensures r == CallAt(source, index, ROUTE_METHODS)
  {
    hide AfterGeneric, MatchBracket, ReceiverLength;
    var verbs := ROUTE_METHODS;
    var m := 0;
    while m < |verbs|
      invariant 0 <= m <= |verbs|
      invariant CallAt(source, index, verbs[m..]) == CallAt(source, index, verbs)
    {
      var verb := verbs[m];
      CallAtStep(source, index, verbs, m);
      m := m + 1;
      var receiverLength := ReceiverLength(source, index, verb);
      if receiverLength == 0 { continue; }

      var cursor := SkipGenericBlock(source, index + receiverLength);
      cursor := SkipWhitespace(source, cursor);
      if !(cursor < |source| && source[cursor] == '(') { continue; }

      var callEnd := FindMatching(source, cursor, '(', ')');
      if callEnd < 0 { continue; }
      return Some(Call(index, verb, cursor, callEnd));
    }
    return None;
  }

  lemma CallAtStep(s: string, i: nat, verbs: seq<string>, m: nat)
    requires m < |verbs|
    ensures CallAt(s, i, verbs[m..]) ==
            if CallWith(s, i, verbs[m]).Some? then CallWith(s, i, verbs[m]) else CallAt(s, i, verbs[m + 1..])
  {
    hide CallWith;
    assert verbs[m..][1..] == verbs[m + 1..];
  }

  lemma RoutesStep(s: string, i: nat)
    requires i < |s|
    ensures RoutesFrom(s, i) ==
            match CallAt(s, i, ROUTE_METHODS)
            case None => RoutesFrom(s, i + 1)
            case Some(call) =>
              if RouteOf(s, call).None? then RoutesFrom(s, call.close + 1)
              else [RouteOf(s, call).value] + RoutesFrom(s, call.close + 1)
  {
    hide CallAt, RouteOf;
  }

  method CollectRoutes(source: string) returns (routes: seq<Route>)
    ensures routes == RoutesFrom(source, 0)
  {
    hide CallAt, Split, ReadLiteral, LineOf, JoinLines, Uppercase, RoutesFrom;
    routes := [];
    var index := 0;
    while index < |source|
      invariant routes + RoutesFrom(source, index) == RoutesFrom(source, 0)
      decreases |source| - index
    {
      var call := FindCall(source, index);
      RoutesStep(source, index);
      if call.Some? {
        var callEnd := call.value.close;
        var args := SplitTopLevelArgs(source[call.value.open + 1..callEnd]);
        var path := ReadStringLiteral(Some(args[0]));
        if path.Some? && path.value != "" {
          routes := routes + [Route(
            LineOf(source, index), Uppercase(call.value.verb), path.value,
            if |args| > 1 then args[1] else "", JoinLines(args[1..]))];
        }
        index := callEnd;
      }
      index := index + 1;
    }
    NoRoutesPastEnd(source, index);
  }

  lemma NoRoutesPastEnd(s: string, i: nat)
    requires i >= |s|
    ensures RoutesFrom(s, i) == []
  {
  }
}
