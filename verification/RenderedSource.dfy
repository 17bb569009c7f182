/**
  Rendering nested objects and scanning them again.  Objects hold string literals in any of the three
  quotes, with escapes, and line and block comments; braces, quotes and comment markers may occur
  anywhere inside strings and comments.
 */
module RenderedSource {
  import opened Lexer
  import opened LocalePruner
  import opened TextSearch

  datatype Unit = Plainly(c: char) | Escaped(c: char)

  datatype Node =
    | Done
    | Literal(key: string, quote: char, units: seq<Unit>, rest: Node)
    | Nested(key: string, inner: Node, rest: Node)
    | LineNote(text: string, rest: Node)
    | BlockNote(text: string, rest: Node)

  // ---------- Rendering ----------

  function Body(units: seq<Unit>): string {
    if units == [] then ""
    else (match units[0] case Plainly(c) => [c] case Escaped(c) => ['\\', c]) + Body(units[1..])
  }

  function Quoted(quote: char, units: seq<Unit>): string {
    [quote] + Body(units) + [quote]
  }

  function Rendered(node: Node): string {
    match node
    case Done => ""
    case Literal(key, quote, units, rest) => key + ": " + Quoted(quote, units) + ",\n" + Rendered(rest)
    case Nested(key, inner, rest) => key + ": " + ("{" + Rendered(inner) + "}") + ",\n" + Rendered(rest)
    case LineNote(text, rest) => "//" + text + "\n" + Rendered(rest)
    case BlockNote(text, rest) => "/*" + text + "*/" + Rendered(rest)
  }

  // ---------- What may be rendered ----------

  predicate Writable(quote: char, units: seq<Unit>) {
    forall u :: u in units ==> u.Plainly? ==> u.c != quote && u.c != '\\'
  }

  predicate NoCommentEnd(text: string) {
    forall i :: 0 <= i < |text| - 1 ==> !(text[i] == '*' && text[i + 1] == '/')
  }

  predicate Proper(node: Node) {
    match node
    case Done => true
    case Literal(key, quote, units, rest) =>
      IsKey(key) && IsQuote(quote) && Writable(quote, units) && Proper(rest)
    case Nested(key, inner, rest) => IsKey(key) && Proper(inner) && Proper(rest)
    case LineNote(text, rest) => '\n' !in text && Proper(rest)
    case BlockNote(text, rest) => NoCommentEnd(text) && Proper(rest)
  }

  // ---------- Scanning ----------

  lemma {:induction false} BodyScans(quote: char, units: seq<Unit>, tail: string, d: int)
    requires IsQuote(quote) && Writable(quote, units)
    ensures Scan(Body(units) + tail, Str(quote), d) == Scan(tail, Str(quote), d).Delay(|Body(units)|)
    decreases |units|
  {
    hide Scan;
    if units == [] {
      assert Body(units) + tail == tail;
    } else {
      assert units[0] in units;
      var more := Body(units[1..]) + tail;
      BodyScans(quote, units[1..], tail, d);
      match units[0]
      case Plainly(c) =>
        assert Body(units) + tail == [c] + more;
        ScanCons(c, more, Str(quote), d);
      case Escaped(c) =>
        assert Body(units) + tail == ['\\'] + ([c] + more);
        ScanCons('\\', [c] + more, Str(quote), d);
        ScanCons(c, more, Esc(quote), d);
    }
  }

  lemma QuotedBalanced(quote: char, units: seq<Unit>)
    requires IsQuote(quote) && Writable(quote, units)
    ensures Balanced(Quoted(quote, units))
  {
    BodyScans(quote, units, [quote], 1);
    assert Quoted(quote, units) == [quote] + (Body(units) + [quote]);
    assert [quote][1..] == "";
    assert Scan([quote], Str(quote), 1) == Running(Code, 1);
  }

  lemma {:induction false} LineCommentRuns(text: string, d: int)
    requires '\n' !in text
    ensures Scan(text + "\n", Line, d) == Running(Code, d)
  {
    if text == "" {
      assert "\n"[1..] == "";
      assert text + "\n" == "\n";
    } else {
      assert text[0] in text;
      assert (text + "\n")[1..] == text[1..] + "\n";
      LineCommentRuns(text[1..], d);
    }
  }

  lemma {:induction false} BlockCommentRuns(text: string, m: Mode, d: int)
    requires NoCommentEnd(text) && (m == Block || (m == Star && (text == "" || text[0] != '/')))
    ensures Scan(text + "*/", m, d) == Running(Code, d)
  {
    if text == "" {
      assert text + "*/" == "*/";
      assert "*/"[1..] == "/" && "/"[1..] == "";
    } else {
      assert (text + "*/")[1..] == text[1..] + "*/";
      var rest := text[1..];
      forall i | 0 <= i < |rest| - 1
        ensures !(rest[i] == '*' && rest[i + 1] == '/')
      {
        assert rest[i] == text[i + 1] && rest[i + 1] == text[i + 2];
      }
      assert |text| > 1 ==> !(text[0] == '*' && text[0 + 1] == '/');
      BlockCommentRuns(text[1..], NextMode(m, text[0]), d);
    }
  }

  lemma LineNoteBalanced(text: string)
    requires '\n' !in text
    ensures Balanced("//" + text + "\n")
  {
    var rest := text + "\n";
    LineCommentRuns(text, 1);
    assert "//" + text + "\n" == "/" + ("/" + rest);
    assert ("/" + rest)[1..] == rest;
  }

  lemma BlockNoteBalanced(text: string)
    requires NoCommentEnd(text)
    ensures Balanced("/*" + text + "*/")
  {
    var rest := text + "*/";
    BlockCommentRuns(text, Block, 1);
    assert "/*" + text + "*/" == "/" + ("*" + rest);
    assert ("*" + rest)[1..] == rest;
  }

  lemma PropertyBalanced(key: string, value: string)
    requires IsKey(key) && Balanced(value)
    ensures Balanced(key + ": " + value + ",\n")
  {
    PlainRuns(key + ": ", 1);
    PlainRuns(",\n", 1);
    BalancedConcat(key + ": ", value);
    BalancedConcat(key + ": " + value, ",\n");
  }

  lemma {:induction false} RenderedBalanced(node: Node)
    requires Proper(node)
    ensures Balanced(Rendered(node))
  {
    hide Balanced, IsKey, Quoted, NoCommentEnd, Writable;
    match node
    case Done => EmptyBalanced();
    case Literal(key, quote, units, rest) =>
      RenderedBalanced(rest);
      QuotedBalanced(quote, units);
      PropertyBalanced(key, Quoted(quote, units));
      BalancedConcat(key + ": " + Quoted(quote, units) + ",\n", Rendered(rest));
    case Nested(key, inner, rest) =>
      RenderedBalanced(rest);
      RenderedBalanced(inner);
      BracesBalanced(Rendered(inner));
      PropertyBalanced(key, "{" + Rendered(inner) + "}");
      BalancedConcat(key + ": " + ("{" + Rendered(inner) + "}") + ",\n", Rendered(rest));
    case LineNote(text, rest) =>
      RenderedBalanced(rest);
      LineNoteBalanced(text);
      BalancedConcat("//" + text + "\n", Rendered(rest));
    case BlockNote(text, rest) =>
      RenderedBalanced(rest);
      BlockNoteBalanced(text);
      BalancedConcat("/*" + text + "*/", Rendered(rest));
  }

  lemma EmptyBalanced()
    ensures Balanced("")
  {
  }

  /**
    The round trip: wherever a rendered object is placed, scanning from its opening brace returns its
    closing brace, whatever precedes and follows it.
   */
  lemma ScanFindsRenderedEnd(prefix: string, node: Node, suffix: string)
    requires Proper(node)
    ensures MatchBrace(prefix + "{" + Rendered(node) + "}" + suffix, |prefix|) == |prefix| + |Rendered(node)| + 1
  {
    hide Balanced;
    RenderedBalanced(node);
    BracesClose(Rendered(node), suffix);
    var text := prefix + "{" + Rendered(node) + "}" + suffix;
    MatchFromIsScan(text, |prefix|, Code, 0);
    assert text[|prefix|..] == "{" + Rendered(node) + "}" + suffix;
  }
}
