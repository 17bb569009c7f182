/**
  Both pruning passes on whole locale sources: printing commutes with looking up, with every loop of
  removals, with keeping only listed fields, and therefore with the passes themselves.
 */
module DocumentPasses {
  import opened Lexer
  import opened LocalePruner
  import opened TextSearch
  import opened LocaleDocument
  import opened PrintedDocument
  import opened DocumentPruning

  predicate WellFormedFile(f: File) {
    WellFormed(f.doc)
  }

  /** The indentation of the keys of the object at a path. */
  function Level(path: Path): nat {
    4 * path.Depth() + 4
  }

  /** Nothing in the file but fields and groups looks like a key on the way. */
  ghost predicate ShyPath(f: File, path: Path) {
    match path
    case Root => true
    case In(outer, key) => ShyPath(f, outer) && IsKey(key) && ShyFile(f, Pattern(Level(outer), key))
  }

  /** Every key on the way that is there at all names a group. */
  predicate Resolvable(f: File, path: Path) {
    match path
    case Root => true
    case In(outer, key) =>
      Resolvable(f, outer) && (Sub(f, outer).Some? ==> !From(Sub(f, outer).value, key).Field?)
  }

  // ---------- The surroundings of the document at a path ----------

  function FrameOf(f: File, path: Path): Frame
    requires Sub(f, path).Some?
  {
    match path
    case Root => Frame("", f.prelude + "{\n", Spaces(f.pad) + "}" + f.post, "")
    case In(outer, key) =>
      var d, n, fr := Sub(f, outer).value, Level(outer), FrameOf(f, outer);
      GroupFrame(fr, d, n, key)
  }

  function GroupFrame(fr: Frame, d: Doc, n: nat, key: string): Frame
    requires From(d, key).Group?
  {
    var g := From(d, key);
    Frame(
      fr.outside + fr.open + TextBefore(d, n, key) + GroupHead(n, key),
      "{" + g.lead,
      Spaces(g.pad) + "}",
      GroupTail(g.comma) + Render(g.rest, n) + fr.close + fr.after)
  }

  lemma GroupFrameText(fr: Frame, d: Doc, n: nat, key: string)
    requires From(d, key).Group?
    ensures fr.Text(d, n) == GroupFrame(fr, d, n, key).Text(From(d, key).body, n + 4)
  {
    hide From, TextBefore, Render, GroupHead;
    FromKey(d, key);
    RenderSplits(d, n, key);
    RenderGroup(From(d, key), n);
  }

  lemma RenderGroup(d: Doc, n: nat)
    requires d.Group?
    ensures Render(d, n) == GroupHead(n, d.key) + "{" + (d.lead + Render(d.body, n + 4) + Spaces(d.pad)) + "}" +
                            GroupTail(d.comma) + Render(d.rest, n)
  {
  }

  lemma RootText(f: File)
    ensures FileText(f) == FrameOf(f, Root).Text(f.doc, Level(Root))
  {
    hide Render, Spaces;
    var printed, close := Render(f.doc, 4), Spaces(f.pad) + "}" + f.post;
    assert Level(Root) == 4;
    assert "" + ((f.prelude + "{\n") + printed + close) + "" == f.prelude + "{\n" + printed + close;
  }

  lemma {:induction false} FileTextFramed(f: File, path: Path)
    requires Sub(f, path).Some?
    ensures FileText(f) == FrameOf(f, path).Text(Sub(f, path).value, Level(path))
  {
    hide Render, From, GroupFrame;
    match path
    case Root =>
      RootText(f);
    case In(outer, key) =>
      FileTextFramed(f, outer);
      GroupFrameText(FrameOf(f, outer), Sub(f, outer).value, Level(outer), key);
  }

  lemma {:induction false} FromShy(d: Doc, key: string, pattern: string)
    requires Shy(d, pattern)
    ensures Shy(From(d, key), pattern)
  {
    match d
    case End =>
    case Filler(_, rest) => FromShy(rest, key, pattern);
    case Field(_, _, rest) => FromShy(rest, key, pattern);
    case Group(_, _, _, _, _, rest) => FromShy(rest, key, pattern);
  }

  lemma {:induction false} SubWellFormed(f: File, path: Path)
    requires WellFormedFile(f) && Sub(f, path).Some?
    ensures WellFormed(Sub(f, path).value)
  {
    match path
    case Root =>
    case In(outer, key) =>
      SubWellFormed(f, outer);
      FromKey(Sub(f, outer).value, key);
  }

  lemma BraceQuiet(lead: string, n: nat, key: string)
    requires IsKey(key) && Quiet(lead, Pattern(n, key))
    ensures Quiet("{" + lead, Pattern(n, key))
  {
    CloseQuiet(0, "", n, key);
    var pattern := Pattern(n, key);
    PatternShape(n, key);
    forall p: nat
      ensures !MatchesAt("{" + lead, p, pattern)
    {
      if p == 0 {
        Differs("{" + lead, 0, pattern, 0);
      } else if p + |pattern| <= |lead| + 1 {
        assert ("{" + lead)[p..p + |pattern|] == lead[p - 1..p - 1 + |pattern|];
        assert !MatchesAt(lead, p - 1, pattern);
      }
    }
  }

  /** Wherever a document sits in a shy file, its surroundings do not disturb a search in it. */
  lemma {:induction false} FrameQuietly(f: File, path: Path, n: nat, key: string)
    requires WellFormedFile(f) && Sub(f, path).Some?
    requires IsKey(key) && ShyFile(f, Pattern(n, key))
    ensures Shy(Sub(f, path).value, Pattern(n, key))
    ensures FrameOf(f, path).Quietly(Sub(f, path).value, Pattern(n, key))
  {
    var pattern := Pattern(n, key);
    PatternShape(n, key);
    match path
    case Root =>
      QuietAppend(f.prelude, "{\n", pattern);
      CloseQuiet(f.pad, f.post, n, key);
    case In(outer, k) =>
      FrameQuietly(f, outer, n, key);
      var d := Sub(f, outer).value;
      SubWellFormed(f, outer);
      FromShy(d, k, pattern);
      FromKey(d, k);
      var g := From(d, k);
      BraceQuiet(g.lead, n, key);
      CloseQuiet(g.pad, "", n, key);
      assert Spaces(g.pad) + "}" + "" == Spaces(g.pad) + "}";
  }

  // ---------- Looking up ----------

  /** The group with its braces in the text of the document around it. */
  lemma GroupInFrame(fr: Frame, d: Doc, n: nat, key: string)
    requires From(d, key).Group?
    ensures var g, f := From(d, key), GroupFrame(fr, d, n, key);
            var left := fr.outside + fr.open + TextBefore(d, n, key);
            var inner := g.lead + Render(g.body, n + 4) + Spaces(g.pad);
            && fr.Text(d, n) == left + (GroupHead(n, key) + "{" + inner + "}") + f.after
            && |left + (GroupHead(n, key) + "{" + inner + "}")| <= fr.Range(d, n).to <= |fr.Text(d, n)|
  {
    hide From, TextBefore, Render, GroupHead, GroupTail, Spaces;
    var g := From(d, key);
    FromKey(d, key);
    RenderSplits(d, n, key);
    RenderGroup(g, n);
    GroupFrameText(fr, d, n, key);
    BracesRegrouped(
      fr.outside + fr.open + TextBefore(d, n, key), GroupHead(n, key), g.lead, Render(g.body, n + 4), Spaces(g.pad));
  }

  lemma BracesRegrouped(left: string, head: string, lead: string, body: string, pad: string)
    ensures left + (head + "{" + (lead + body + pad) + "}") == (left + head) + (("{" + lead) + body + (pad + "}"))
  {
  }

  lemma GroupLocated(fr: Frame, d: Doc, n: nat, key: string)
    requires WellFormed(d) && IsKey(key) && Shy(d, Pattern(n, key)) && fr.Quietly(d, Pattern(n, key))
    requires From(d, key).Group?
    ensures fr.Range(d, n).to <= |fr.Text(d, n)|
    ensures FindRange(fr.Text(d, n), key, n, fr.Range(d, n).from, fr.Range(d, n).to) ==
            Some(GroupFrame(fr, d, n, key).Range(From(d, key).body, n + 4))
  {
    hide FirstMatch, TextBefore, Shy, FindRange, Pattern, WellFormed, Render, From, IsKey, Quiet, EndsLine, GroupHead,
      GroupTail, Spaces, Balanced;
    SearchInFrame(fr, d, n, key);
    FromKey(d, key);
    GroupInFrame(fr, d, n, key);
    var g, range := From(d, key), fr.Range(d, n);
    GroupParts(g, n + 4);
    var left := fr.outside + fr.open + TextBefore(d, n, key);
    var inner := g.lead + Render(g.body, n + 4) + Spaces(g.pad);
    GroupFound(left, n, key, inner, GroupFrame(fr, d, n, key).after, range.from, range.to);
  }

  lemma GroupNotLocated(fr: Frame, d: Doc, n: nat, key: string)
    requires WellFormed(d) && IsKey(key) && Shy(d, Pattern(n, key)) && fr.Quietly(d, Pattern(n, key))
    requires From(d, key).End?
    ensures fr.Range(d, n).to <= |fr.Text(d, n)|
    ensures FindRange(fr.Text(d, n), key, n, fr.Range(d, n).from, fr.Range(d, n).to) == None
  {
    SearchInFrame(fr, d, n, key);
  }

  lemma LookupStep(f: File, outer: Path, key: string)
    requires WellFormedFile(f) && Sub(f, outer).Some? && !From(Sub(f, outer).value, key).Field?
    requires IsKey(key) && ShyFile(f, Pattern(Level(outer), key))
    ensures var range := FrameOf(f, outer).Range(Sub(f, outer).value, Level(outer));
            && range.from <= range.to <= |FileText(f)|
            && FindRange(FileText(f), key, Level(outer), range.from, range.to) ==
               match Sub(f, In(outer, key))
               case None => None
               case Some(d) => Some(FrameOf(f, In(outer, key)).Range(d, Level(outer) + 4))
  {
    hide FindRange, Render, From, WellFormed, Shy, Quiet, Pattern, FileText, GroupFrame, WellFormedFile, ShyFile;
    var d, fr := Sub(f, outer).value, FrameOf(f, outer);
    FileTextFramed(f, outer);
    SubWellFormed(f, outer);
    FrameQuietly(f, outer, Level(outer), key);
    FromKey(d, key);
    if From(d, key).Group? {
      GroupLocated(fr, d, Level(outer), key);
    } else {
      GroupNotLocated(fr, d, Level(outer), key);
    }
  }

  lemma RootRange(f: File)
    ensures FrameOf(f, Root).Range(f.doc, Level(Root)) == Slice(0, |FileText(f)|)
  {
    hide Render;
  }

  /** The text lookup finds exactly the document at the path, and nothing when a key is missing. */
  lemma {:induction false} LookupCommutes(f: File, path: Path)
    requires WellFormedFile(f) && ShyPath(f, path) && Resolvable(f, path)
    ensures Locate(FileText(f), path) ==
            match Sub(f, path)
            case None => None
            case Some(d) => Some(FrameOf(f, path).Range(d, Level(path)))
  {
    hide FindRange, From, WellFormed, ShyFile, Pattern, FrameOf, FileText;
    match path
    case Root =>
      RootRange(f);
    case In(outer, key) =>
      LookupCommutes(f, outer);
      if Sub(f, outer).Some? {
        LookupStep(f, outer, key);
      }
  }

  // ---------- Replacing the document at a path ----------

  lemma {:induction false} PutKeepsFrame(f: File, path: Path, d: Doc)
    requires Sub(f, path).Some?
    ensures Sub(Put(f, path, d), path) == Some(d)
    ensures FrameOf(Put(f, path, d), path) == FrameOf(f, path)
  {
    match path
    case Root =>
    case In(outer, key) =>
      var d0 := Sub(f, outer).value;
      var g := From(d0, key);
      var d1 := SetGroup(d0, key, g.lead, d, g.pad);
      PutKeepsFrame(f, outer, d1);
      SetGroupSplits(d0, Level(outer), key, g.lead, d, g.pad);
  }

  lemma {:induction false} PutTwice(f: File, path: Path, d1: Doc, d2: Doc)
    requires Sub(f, path).Some?
    ensures Sub(Put(f, path, d1), path).Some?
    ensures Put(Put(f, path, d1), path, d2) == Put(f, path, d2)
  {
    PutKeepsFrame(f, path, d1);
    match path
    case Root =>
    case In(outer, key) =>
      var d0 := Sub(f, outer).value;
      var g := From(d0, key);
      var e1 := SetGroup(d0, key, g.lead, d1, g.pad);
      SetGroupSplits(d0, 0, key, g.lead, d1, g.pad);
      SetGroupTwice(d0, key, g.lead, d1, g.lead, d2, g.pad);
      PutKeepsFrame(f, outer, e1);
      PutTwice(f, outer, e1, SetGroup(e1, key, g.lead, d2, g.pad));
  }

  lemma {:induction false} SetGroupTwice(
    d: Doc, key: string, lead1: string, body1: Doc, lead2: string, body2: Doc, pad: nat)
    ensures SetGroup(SetGroup(d, key, lead1, body1, pad), key, lead2, body2, pad) ==
            SetGroup(d, key, lead2, body2, pad)
  {
    match d
    case End =>
    case Filler(_, rest) => SetGroupTwice(rest, key, lead1, body1, lead2, body2, pad);
    case Field(_, _, rest) => SetGroupTwice(rest, key, lead1, body1, lead2, body2, pad);
    case Group(_, _, _, _, _, rest) => SetGroupTwice(rest, key, lead1, body1, lead2, body2, pad);
  }

  // ---------- What pruning preserves ----------

  /** The second document may take the place of the first: it is no less shy, well-formed and empty. */
  ghost predicate Tamer(d: Doc, d': Doc) {
    && (WellFormed(d) ==> WellFormed(d'))
    && (d.End? ==> d'.End?)
    && forall pattern :: Shy(d, pattern) ==> Shy(d', pattern)
  }

  lemma {:induction false} RemoveKeyTamer(d: Doc, key: string)
    ensures Tamer(d, RemoveKey(d, key))
  {
    match d
    case End =>
    case Filler(_, rest) => RemoveKeyTamer(rest, key);
    case Field(_, _, rest) => RemoveKeyTamer(rest, key);
    case Group(_, _, _, _, _, rest) => RemoveKeyTamer(rest, key);
  }

  lemma {:induction false} RemoveKeysTamer(d: Doc, keys: seq<string>)
    ensures Tamer(d, RemoveKeys(d, keys))
    decreases |keys|
  {
    if keys != [] {
      RemoveKeyTamer(d, keys[0]);
      RemoveKeysTamer(RemoveKey(d, keys[0]), keys[1..]);
    }
  }

  lemma {:induction false} SetGroupTamer(d: Doc, key: string, body: Doc)
    requires From(d, key).Group? && Tamer(From(d, key).body, body)
    ensures Tamer(d, SetGroup(d, key, From(d, key).lead, body, From(d, key).pad))
  {
    match d
    case End =>
    case Filler(_, rest) => SetGroupTamer(rest, key, body);
    case Field(_, _, rest) => SetGroupTamer(rest, key, body);
    case Group(k, _, _, _, _, rest) =>
      if k != key {
        SetGroupTamer(rest, key, body);
      }
  }

  lemma {:induction false} PutTamer(f: File, path: Path, d: Doc)
    requires Sub(f, path).Some? && Tamer(Sub(f, path).value, d)
    ensures Tamer(f.doc, Put(f, path, d).doc)
    ensures Put(f, path, d) == f.(doc := Put(f, path, d).doc)
  {
    match path
    case Root =>
    case In(outer, key) =>
      var d0 := Sub(f, outer).value;
      SetGroupTamer(d0, key, d);
      PutTamer(f, outer, SetGroup(d0, key, From(d0, key).lead, d, From(d0, key).pad));
  }

  lemma {:induction false} TamerShyPath(f: File, d: Doc, path: Path)
    requires Tamer(f.doc, d) && ShyPath(f, path)
    ensures ShyPath(f.(doc := d), path)
  {
    match path
    case Root =>
    case In(outer, _) => TamerShyPath(f, d, outer);
  }

  lemma PruneTamer(f: File, path: Path, keys: seq<string>)
    ensures Tamer(f.doc, Prune(f, path, keys).doc)
    ensures Prune(f, path, keys) == f.(doc := Prune(f, path, keys).doc)
  {
    if Sub(f, path).Some? {
      RemoveKeysTamer(Sub(f, path).value, keys);
      PutTamer(f, path, RemoveKeys(Sub(f, path).value, keys));
    }
  }

  // ---------- A loop of removals ----------

  /** The keys are plain, and nothing but fields and groups looks like one of them below the path. */
  ghost predicate ShyKeys(f: File, path: Path, keys: seq<string>) {
    forall i :: 0 <= i < |keys| ==> IsKey(keys[i]) && ShyFile(f, Pattern(Level(path), keys[i]))
  }

  lemma OneRemoval(f: File, path: Path, key: string)
    requires WellFormedFile(f) && Sub(f, path).Some? && ShyPath(f, path) && Resolvable(f, path)
    requires IsKey(key) && ShyFile(f, Pattern(Level(path), key))
    ensures Locate(FileText(f), path).Some?
    ensures var range := Locate(FileText(f), path).value;
            RemoveProperty(FileText(f), key, Level(path), range.from, range.to) ==
            FileText(Put(f, path, RemoveKey(Sub(f, path).value, key)))
  {
    hide RemoveProperty, Render, From, WellFormed, Shy, Quiet, Pattern, RemoveKey, Locate;
    var d := Sub(f, path).value;
    LookupCommutes(f, path);
    FileTextFramed(f, path);
    SubWellFormed(f, path);
    FrameQuietly(f, path, Level(path), key);
    RemovalCommutes(FrameOf(f, path), d, Level(path), key);
    PutKeepsFrame(f, path, RemoveKey(d, key));
    FileTextFramed(Put(f, path, RemoveKey(d, key)), path);
  }

  lemma {:induction false} FoundResolvable(f: File, path: Path)
    requires Sub(f, path).Some?
    ensures Resolvable(f, path)
  {
    match path
    case Root =>
    case In(outer, _) => FoundResolvable(f, outer);
  }

  /** A loop that looks up and removes key after key leaves the printed pruned document. */
  lemma {:induction false} LoopCommutes(f: File, path: Path, keys: seq<string>)
    requires WellFormedFile(f) && Sub(f, path).Some? && ShyPath(f, path)
    requires ShyKeys(f, path, keys)
    ensures RemoveEach(FileText(f), path, keys) == Finished(FileText(Prune(f, path, keys)))
    decreases |keys|
  {
    hide RemoveProperty, Render, From, WellFormed, Shy, Quiet, Pattern, RemoveKey, Locate, FileText;
    FoundResolvable(f, path);
    var d := Sub(f, path).value;
    if keys == [] {
      PutSame(f, path);
    } else {
      OneRemoval(f, path, keys[0]);
      var d1 := RemoveKey(d, keys[0]);
      var f1 := Put(f, path, d1);
      RemoveKeyTamer(d, keys[0]);
      PutTamer(f, path, d1);
      PutKeepsFrame(f, path, d1);
      TamerShyPath(f, f1.doc, path);
      LoopCommutes(f1, path, keys[1..]);
      PutTwice(f, path, d1, RemoveKeys(d1, keys[1..]));
    }
  }

  lemma {:induction false} SetSame(d: Doc, key: string)
    requires From(d, key).Group?
    ensures SetGroup(d, key, From(d, key).lead, From(d, key).body, From(d, key).pad) == d
  {
    match d
    case End =>
    case Filler(_, rest) => SetSame(rest, key);
    case Field(_, _, rest) => SetSame(rest, key);
    case Group(k, _, _, _, _, rest) =>
      if k != key {
        SetSame(rest, key);
      }
  }

  lemma {:induction false} PutSame(f: File, path: Path)
    requires Sub(f, path).Some?
    ensures Put(f, path, Sub(f, path).value) == f
  {
    match path
    case Root =>
    case In(outer, key) =>
      SetSame(Sub(f, outer).value, key);
      PutSame(f, outer);
  }

  /** The same for a loop whose object may be missing. */
  lemma PruneCommutes(f: File, path: Path, keys: seq<string>)
    requires WellFormedFile(f) && Resolvable(f, path) && ShyPath(f, path) && ShyKeys(f, path, keys)
    ensures RemoveEach(FileText(f), path, keys).text == FileText(Prune(f, path, keys))
    ensures RemoveEach(FileText(f), path, keys).Finished? <==> keys == [] || Sub(f, path).Some?
  {
    if Sub(f, path).Some? {
      LoopCommutes(f, path, keys);
    } else {
      LookupCommutes(f, path);
    }
  }
}
