/**
  Locale sources as documents.  A document is a sequence of one-line fields, nested groups and
  fillers, where a filler is any run of balanced text: comments, blank lines, spreads, properties
  with quoted keys.  Pruning on documents is three list operations; the modules beside this one
  prove that pruning the text is the same thing.
 */
module LocaleDocument {
  import opened Lexer
  import opened LocalePruner
  import opened TextSearch

  datatype Doc =
    | End
    | Filler(text: string, rest: Doc)
    | Field(key: string, value: string, rest: Doc)
    | Group(key: string, lead: string, body: Doc, pad: nat, comma: bool, rest: Doc)

  /** A whole source: what precedes the outermost brace, the document in it, and what follows. */
  datatype File = File(prelude: string, doc: Doc, pad: nat, post: string)

  // ---------- Printing ----------

  function FieldText(n: nat, key: string, value: string): string {
    Pattern(n, key) + " " + value + "\n"
  }

  function GroupHead(n: nat, key: string): string {
    Pattern(n, key) + " "
  }

  function GroupTail(comma: bool): string {
    if comma then ",\n" else "\n"
  }

  function Render(d: Doc, n: nat): string {
    match d
    case End => ""
    case Filler(text, rest) => text + Render(rest, n)
    case Field(key, value, rest) => FieldText(n, key, value) + Render(rest, n)
    case Group(key, lead, body, pad, comma, rest) =>
      GroupHead(n, key) + "{" + (lead + Render(body, n + 4) + Spaces(pad)) + "}" + GroupTail(comma) + Render(rest, n)
  }

  function FileText(f: File): string {
    f.prelude + "{\n" + Render(f.doc, 4) + (Spaces(f.pad) + "}" + f.post)
  }

  // ---------- Well-formed documents ----------

  predicate EndsLine(t: string) {
    t == "" || IsLineTerminator(t[|t| - 1])
  }

  predicate OneLine(t: string) {
    forall c :: c in t ==> !IsLineTerminator(c)
  }

  predicate IsScalar(value: string) {
    value != "" && !IsSpace(value[0]) && value[0] != '{' && OneLine(value) && Balanced(value + "\n")
  }

  predicate WellFormed(d: Doc) {
    match d
    case End => true
    case Filler(text, rest) => Balanced(text) && EndsLine(text) && WellFormed(rest)
    case Field(key, value, rest) => IsKey(key) && IsScalar(value) && WellFormed(rest)
    case Group(key, lead, body, _, _, rest) =>
      && IsKey(key)
      && Balanced(lead)
      && (body.End? || (lead != "" && EndsLine(lead)))
      && WellFormed(body) && WellFormed(rest)
  }

  /** No line of the text looks like the property that the pattern searches for. */
  ghost predicate Quiet(t: string, pattern: string) {
    forall p: nat :: !MatchesAt(t, p, pattern)
  }

  /** Nothing outside the fields and groups looks like the property that is searched for. */
  ghost predicate Shy(d: Doc, pattern: string) {
    match d
    case End => true
    case Filler(text, rest) => Quiet(text, pattern) && Shy(rest, pattern)
    case Field(_, _, rest) => Shy(rest, pattern)
    case Group(_, lead, body, _, _, rest) => Quiet(lead, pattern) && Shy(body, pattern) && Shy(rest, pattern)
  }

  ghost predicate ShyFile(f: File, pattern: string) {
    && Quiet(f.prelude, pattern)
    && Quiet(f.post, pattern)
    && Shy(f.doc, pattern)
  }

  // ---------- Pruning documents ----------

  /** The document from the first field or group with the key on, or `End`. */
  function From(d: Doc, key: string): Doc {
    match d
    case End => End
    case Filler(_, rest) => From(rest, key)
    case Field(k, _, rest) => if k == key then d else From(rest, key)
    case Group(k, _, _, _, _, rest) => if k == key then d else From(rest, key)
  }

  function RemoveKey(d: Doc, key: string): Doc {
    match d
    case End => End
    case Filler(text, rest) => Filler(text, RemoveKey(rest, key))
    case Field(k, value, rest) => if k == key then rest else Field(k, value, RemoveKey(rest, key))
    case Group(k, lead, body, pad, comma, rest) =>
      if k == key then rest else Group(k, lead, body, pad, comma, RemoveKey(rest, key))
  }

  function RemoveKeys(d: Doc, keys: seq<string>): Doc
    decreases |keys|
  {
    if keys == [] then d else RemoveKeys(RemoveKey(d, keys[0]), keys[1..])
  }

  /** Replace the contents of the first item with the key, when that is a group. */
  function SetGroup(d: Doc, key: string, lead: string, body: Doc, pad: nat): Doc {
    match d
    case End => End
    case Filler(text, rest) => Filler(text, SetGroup(rest, key, lead, body, pad))
    case Field(k, value, rest) =>
      if k == key then d else Field(k, value, SetGroup(rest, key, lead, body, pad))
    case Group(k, lead0, body0, pad0, comma, rest) =>
      if k == key then Group(k, lead, body, pad, comma, rest)
      else Group(k, lead0, body0, pad0, comma, SetGroup(rest, key, lead, body, pad))
  }

  /** The document at a path; `None` when a key on the way is missing. */
  function Sub(f: File, path: Path): Option<Doc> {
    match path
    case Root => Some(f.doc)
    case In(outer, key) =>
      match Sub(f, outer)
      case None => None
      case Some(d) => if From(d, key).Group? then Some(From(d, key).body) else None
  }

  function Put(f: File, path: Path, d: Doc): File
    requires Sub(f, path).Some?
  {
    match path
    case Root => f.(doc := d)
    case In(outer, key) =>
      var g := From(Sub(f, outer).value, key);
      Put(f, outer, SetGroup(Sub(f, outer).value, key, g.lead, d, g.pad))
  }

  /** Remove the first item with each of the keys from the object at the path, when there is one. */
  function Prune(f: File, path: Path, keys: seq<string>): File {
    match Sub(f, path)
    case None => f
    case Some(d) => Put(f, path, RemoveKeys(d, keys))
  }

  /** The fields that are kept, in the order of the keys. */
  function KeptFields(d: Doc, keys: seq<string>): Doc {
    if keys == [] then End
    else if From(d, keys[0]).Field? then Field(keys[0], From(d, keys[0]).value, KeptFields(d, keys[1..]))
    else KeptFields(d, keys[1..])
  }

  function KeepFields(f: File, path: Path, key: string, keys: seq<string>): File {
    match Sub(f, path)
    case None => f
    case Some(d) =>
      if !From(d, key).Group? || KeptFields(From(d, key).body, keys).End? then f
      else Put(f, path, SetGroup(d, key, "\n", KeptFields(From(d, key).body, keys), 0))
  }

  function AdminFile(f: File): File {
    var f1 := Prune(f, Root, USER_ONLY_KEYS);
    var f2 := Prune(f1, ENTERTAINMENT, ADMIN_ENTERTAINMENT_REMOVED_KEYS);
    Prune(f2, PACKAGES, DISABLED_PACKAGE_SHARE_KEYS)
  }

  function UserFile(f: File): File {
    if Sub(f, ADMIN).None? then f else
    var f1 := Prune(f, ADMIN, ADMIN_ONLY_KEYS);
    var f2 := Prune(f1, NAV, ADMIN_ONLY_NAV_KEYS);
    var f3 := Prune(f2, ENTERTAINMENT, ["admin"]);
    KeepFields(f3, ADMIN, "users", SHARED_USER_KEYS)
  }

  // ---------- Searching printed documents ----------

  lemma PatternShape(n: nat, key: string)
    requires IsKey(key)
    ensures var p := Pattern(n, key);
            && |p| == n + |key| + 1 && p[|p| - 1] == ':' && OneLine(p) && Plain(p)
            && (forall i :: 0 <= i < n ==> p[i] == ' ')
            && (forall i :: n <= i < n + |key| ==> IsKeyChar(p[i]))
            && p[n..n + |key|] == key
  {
  }

  lemma Differs(t: string, p: nat, pattern: string, i: nat)
    requires i < |pattern| && p + i < |t| && t[p + i] != pattern[i]
    ensures !MatchesAt(t, p, pattern)
  {
    if p + |pattern| <= |t| {
      assert t[p..p + |pattern|][i] == t[p + i];
    }
  }

  /** A match never reaches into text without a colon. */
  lemma QuietAppend(a: string, b: string, pattern: string)
    requires Quiet(a, pattern) && pattern != "" && pattern[|pattern| - 1] !in b
    ensures Quiet(a + b, pattern)
  {
    forall p: nat
      ensures !MatchesAt(a + b, p, pattern)
    {
      var k := p + |pattern|;
      if |a| < k <= |a + b| {
        assert b[k - 1 - |a|] in b;
        Differs(a + b, p, pattern, |pattern| - 1);
      } else if k <= |a| {
        MatchInFront(a, b, pattern, p);
        assert !MatchesAt(a, p, pattern);
      }
    }
  }

  lemma MatchInFront(a: string, b: string, pattern: string, p: nat)
    requires p < p + |pattern| <= |a|
    ensures MatchesAt(a + b, p, pattern) == MatchesAt(a, p, pattern)
  {
    SliceOfFront(a, b, p, p + |pattern|);
  }

  lemma MatchInBack(a: string, b: string, pattern: string, p: nat)
    requires EndsLine(a) && pattern != "" && |a| <= p
    ensures MatchesAt(a + b, p, pattern) == MatchesAt(b, p - |a|, pattern)
  {
    if p + |pattern| <= |a + b| {
      SliceOfBack(a, b, p, p + |pattern|);
      assert p > |a| ==> (a + b)[p - 1] == b[p - |a| - 1];
    }
  }

  /** Behind complete lines, a search starts afresh. */
  lemma MatchBehindLines(a: string, b: string, pattern: string, p: nat)
    requires EndsLine(a) && OneLine(pattern) && pattern != ""
    ensures p < |a| ==> MatchesAt(a + b, p, pattern) == MatchesAt(a, p, pattern)
    ensures p >= |a| ==> MatchesAt(a + b, p, pattern) == MatchesAt(b, p - |a|, pattern)
  {
    if p >= |a| {
      MatchInBack(a, b, pattern, p);
    } else if p + |pattern| <= |a| {
      MatchInFront(a, b, pattern, p);
    } else {
      assert pattern[|a| - 1 - p] in pattern;
      Differs(a + b, p, pattern, |a| - 1 - p);
    }
  }

  lemma QuietConcat(a: string, b: string, pattern: string)
    requires Quiet(a, pattern) && Quiet(b, pattern)
    requires EndsLine(a) && OneLine(pattern) && pattern != ""
    ensures Quiet(a + b, pattern)
  {
    forall p: nat
      ensures !MatchesAt(a + b, p, pattern)
    {
      MatchBehindLines(a, b, pattern, p);
    }
  }

  lemma QuietFindsNothing(t: string, pattern: string)
    requires Quiet(t, pattern)
    ensures FirstMatch(t, pattern, 0) == -1
  {
    FirstMatchIsLeftmost(t, pattern, 0);
  }

  /** The search skips quiet lines and stops at a match right behind them. */
  lemma FoundBehindLines(a: string, b: string, pattern: string)
    requires Quiet(a, pattern) && EndsLine(a) && OneLine(pattern) && pattern != ""
    requires MatchesAt(b, 0, pattern)
    ensures FirstMatch(a + b, pattern, 0) == |a|
  {
    hide MatchesAt, FirstMatch;
    FirstMatchIsLeftmost(a + b, pattern, 0);
    forall p: nat | p <= |a|
      ensures MatchesAt(a + b, p, pattern) == (p == |a|)
    {
      MatchBehindLines(a, b, pattern, p);
    }
    assert FirstMatch(a + b, pattern, 0) <= |a + b|;
    assert MatchesAt(a + b, |a|, pattern);
  }

  /** A printed line starts with the pattern exactly when indentation and key are the same. */
  lemma HeadMatches(n: nat, key: string, n': nat, key': string, tail: string)
    requires IsKey(key) && IsKey(key')
    ensures MatchesAt(Pattern(n, key) + tail, 0, Pattern(n', key')) <==> n == n' && key == key'
  {
    var head, pattern := Pattern(n, key), Pattern(n', key');
    PatternShape(n, key);
    PatternShape(n', key');
    var line := head + tail;
    if n < n' {
      Differs(line, 0, pattern, n);
    } else if n > n' {
      Differs(line, 0, pattern, n');
    } else if |key| < |key'| {
      Differs(line, 0, pattern, n + |key|);
    } else if |key| > |key'| {
      Differs(line, 0, pattern, n + |key'|);
    } else {
      assert line[0..|pattern|] == head;
      assert pattern == Pattern(n, key');
      assert head == pattern ==> key == head[n..n + |key|] == pattern[n..n + |key|] == key';
    }
  }

  lemma FieldQuiet(n: nat, key: string, value: string, n': nat, key': string)
    requires IsKey(key) && IsKey(key') && IsScalar(value)
    requires n != n' || key != key'
    ensures Quiet(FieldText(n, key, value), Pattern(n', key'))
  {
    var pattern := Pattern(n', key');
    PatternShape(n, key);
    PatternShape(n', key');
    var t := FieldText(n, key, value);
    HeadMatches(n, key, n', key', " " + value + "\n");
    assert t == Pattern(n, key) + (" " + value + "\n");
    var line := Pattern(n, key) + " " + value;
    forall p: nat | p > 0
      ensures !MatchesAt(t, p, pattern)
    {
      if p < |t| {
        assert t[p - 1] == line[p - 1];
        assert line[p - 1] in line;
      }
    }
  }

  lemma GroupHeadQuiet(n: nat, key: string, lead: string, n': nat, key': string)
    requires IsKey(key) && IsKey(key')
    requires n != n' || key != key'
    requires Quiet(lead, Pattern(n', key'))
    ensures Quiet(GroupHead(n, key) + "{" + lead, Pattern(n', key'))
  {
    var pattern := Pattern(n', key');
    PatternShape(n, key);
    PatternShape(n', key');
    var head := GroupHead(n, key) + "{";
    var t := head + lead;
    HeadMatches(n, key, n', key', " {" + lead);
    assert t == Pattern(n, key) + (" {" + lead);
    assert OneLine(head);
    forall p: nat | p > 0
      ensures !MatchesAt(t, p, pattern)
    {
      if p + |pattern| <= |t| {
        assert t[p - 1] == (if p <= |head| then head[p - 1] else lead[p - |head| - 1]);
        if p <= |head| {
          assert head[p - 1] in head;
        } else {
          assert t[p..p + |pattern|] == lead[p - |head|..p - |head| + |pattern|];
          assert !MatchesAt(lead, p - |head|, pattern);
        }
      }
    }
  }
}
