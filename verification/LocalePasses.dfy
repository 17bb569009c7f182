/**
  The two pruning passes of the build, on every well-formed locale source: the admin build and the
  user build print exactly the pruned documents.
 */
module LocalePasses {
  import opened LocalePruner
  import opened TextSearch
  import opened LocaleDocument
  import opened PrintedDocument
  import opened DocumentPruning
  import opened DocumentPasses
  import Lexer

  // ---------- Keeping listed fields ----------

  lemma KeptField(left: string, n: nat, key: string, value: string, right: string)
    requires IsKey(key) && IsScalar(value)
    requires FirstMatch(left + FieldText(n, key, value) + right, Pattern(n, key), 0) == |left|
    ensures KeptLine(left + FieldText(n, key, value) + right, Pattern(n, key), 0) == FieldText(n, key, value)
  {
    hide FirstMatch, Pattern, Lexer.Balanced, IsKey;
    var content := left + FieldText(n, key, value) + right;
    var low := |left| + |Pattern(n, key)|;
    assert content[low] == ' ' && content[low + 1] == value[0];
    SkipSpaceIs(content, low, |content|, low + 1);
    var nl := low + 1 + |value|;
    assert content[nl] == '\n';
    forall q | low < q < nl
      ensures content[q] != '\n'
    {
      assert content[q] == value[q - low - 1] && value[q - low - 1] in value;
    }
    IndexOfIs(content, '\n', low + 1, nl);
    assert content[|left|..nl + 1] == FieldText(n, key, value);
  }

  /** The content of an object: everything between its braces. */
  function Content(lead: string, body: Doc, n: nat, pad: nat): string {
    lead + Render(body, n) + Spaces(pad)
  }

  lemma KeptLineOf(lead: string, body: Doc, n: nat, pad: nat, key: string)
    requires WellFormed(body) && (body.End? || (lead != "" && EndsLine(lead)))
    requires IsKey(key) && Quiet(lead, Pattern(n, key)) && Shy(body, Pattern(n, key))
    requires !From(body, key).Group?
    ensures KeptLine(Content(lead, body, n, pad), Pattern(n, key), 0) ==
            if From(body, key).Field? then FieldText(n, key, From(body, key).value) else ""
  {
    hide FirstMatch, TextBefore, Shy, RestOfLine, Pattern, WellFormed, From, IsKey, Quiet, FieldText;
    var content, item := Content(lead, body, n, pad), From(body, key);
    FromKey(body, key);
    SpacesQuiet(pad, n, key);
    SearchInDocument(lead, body, n, Spaces(pad), key);
    if item.Field? {
      RenderSplits(body, n, key);
      FieldParts(item);
      var left, right := lead + TextBefore(body, n, key), Render(item.rest, n) + Spaces(pad);
      assert content == left + FieldText(n, key, item.value) + right;
      KeptField(left, n, key, item.value, right);
    }
  }

  lemma SpacesQuiet(pad: nat, n: nat, key: string)
    requires IsKey(key)
    ensures Quiet(Spaces(pad), Pattern(n, key)) && ':' !in Spaces(pad)
  {
    PatternShape(n, key);
    QuietAppend("", Spaces(pad), Pattern(n, key));
    assert "" + Spaces(pad) == Spaces(pad);
  }

  ghost predicate KeepsScalars(lead: string, body: Doc, n: nat, keys: seq<string>) {
    forall i :: 0 <= i < |keys| ==>
      && IsKey(keys[i])
      && Quiet(lead, Pattern(n, keys[i]))
      && Shy(body, Pattern(n, keys[i]))
      && !From(body, keys[i]).Group?
  }

  lemma {:induction false} KeptLinesOf(lead: string, body: Doc, n: nat, pad: nat, keys: seq<string>)
    requires WellFormed(body) && (body.End? || (lead != "" && EndsLine(lead)))
    requires KeepsScalars(lead, body, n, keys)
    ensures KeptLines(Content(lead, body, n, pad), n, keys) == Render(KeptFields(body, keys), n)
    decreases |keys|
  {
    hide KeptLine, Content, WellFormed, Pattern, From, Quiet, Shy;
    if keys != [] {
      KeptLineOf(lead, body, n, pad, keys[0]);
      KeptLinesOf(lead, body, n, pad, keys[1..]);
    }
  }

  lemma {:induction false} KeptFieldsEmpty(d: Doc, n: nat)
    requires d.End? || d.Field?
    ensures d.End? <==> Render(d, n) == ""
  {
  }

  lemma {:induction false} KeptFieldsShape(d: Doc, keys: seq<string>)
    ensures KeptFields(d, keys).End? || KeptFields(d, keys).Field?
    decreases |keys|
  {
    if keys != [] {
      KeptFieldsShape(d, keys[1..]);
    }
  }

  /** A group with new contents sits where the old one sat. */
  lemma GroupReplaced(f: File, path: Path, key: string, kept: Doc)
    requires Sub(f, In(path, key)).Some?
    ensures var d' := SetGroup(Sub(f, path).value, key, "\n", kept, 0);
            var f', inner := Put(f, path, d'), In(path, key);
            && Sub(f', inner) == Some(kept)
            && FrameOf(f', inner) == FrameOf(f, inner).(open := "{" + "\n", close := Spaces(0) + "}")
  {
    hide Render, From, SetGroup, Put, TextBefore, GroupHead, GroupTail;
    var d := Sub(f, path).value;
    SetGroupSplits(d, Level(path), key, "\n", kept, 0);
    PutKeepsFrame(f, path, SetGroup(d, key, "\n", kept, 0));
    FromKey(d, key);
  }

  /** The text of a group's content, and the text after its content is replaced by the kept fields. */
  lemma KeptText(f: File, path: Path, key: string, keys: seq<string>)
    requires Sub(f, In(path, key)).Some?
    ensures var fr, body := FrameOf(f, In(path, key)), Sub(f, In(path, key)).value;
            var item, n := From(Sub(f, path).value, key), Level(In(path, key));
            var kept, range := KeptFields(body, keys), fr.Range(body, n);
            var text := FileText(f);
            && range.from + 1 <= range.to - 1 <= |text|
            && text[range.from + 1..range.to - 1] == Content(item.lead, body, n, item.pad)
            && (kept.End? || FileText(KeepFields(f, path, key, keys)) ==
                             text[..range.from + 1] + "\n" + Render(kept, n) + text[range.to - 1..])
  {
    hide Render, FileText, From, SetGroup, Spaces, Put, Content, FrameOf;
    var inner := In(path, key);
    var item, fr := From(Sub(f, path).value, key), FrameOf(f, inner);
    FrameShape(f, path, key);
    FileTextFramed(f, inner);
    FrameContent(fr, item, Level(inner));
    var kept := KeptFields(item.body, keys);
    if !kept.End? {
      GroupReplaced(f, path, key, kept);
      FileTextFramed(KeepFields(f, path, key, keys), inner);
      FrameReplaced(fr, item, kept, Level(inner));
    }
  }

  lemma FrameShape(f: File, path: Path, key: string)
    requires Sub(f, In(path, key)).Some?
    ensures var item, fr := From(Sub(f, path).value, key), FrameOf(f, In(path, key));
            fr.open == "{" + item.lead && fr.close == Spaces(item.pad) + "}"
  {
  }

  /** Keeping the listed fields of an object in the text is keeping them in the document. */
  lemma KeepCommutes(f: File, path: Path, key: string, keys: seq<string>)
    requires WellFormedFile(f) && Sub(f, path).Some? && ShyPath(f, In(path, key))
    requires !From(Sub(f, path).value, key).Field?
    requires var item := From(Sub(f, path).value, key);
             item.Group? ==> KeepsScalars(item.lead, item.body, Level(path) + 4, keys)
    ensures Locate(FileText(f), path).Some?
    ensures var range := Locate(FileText(f), path).value;
            KeepProperties(FileText(f), key, Level(path), keys, range.from, range.to) ==
            FileText(KeepFields(f, path, key, keys))
  {
    hide FindRange, Render, WellFormed, Shy, Quiet, Pattern, KeptLines, FileText, From, SetGroup, KeepsScalars,
      Put, FrameOf, Content;
    FoundResolvable(f, path);
    LookupCommutes(f, path);
    LookupStep(f, path, key);
    var d := Sub(f, path).value;
    var item, n := From(d, key), Level(In(path, key));
    if item.Group? {
      SubWellFormed(f, path);
      FromKey(d, key);
      GroupParts(item, n);
      KeptText(f, path, key, keys);
      KeptLinesOf(item.lead, item.body, n, item.pad, keys);
      KeptFieldsShape(item.body, keys);
      KeptFieldsEmpty(KeptFields(item.body, keys), n);
    }
  }

  lemma FrameContent(fr: Frame, item: Doc, n: nat)
    requires item.Group?
    requires fr.open == "{" + item.lead && fr.close == Spaces(item.pad) + "}"
    ensures var range := fr.Range(item.body, n);
            && range.from + 1 <= range.to - 1 <= |fr.Text(item.body, n)|
            && fr.Text(item.body, n)[range.from + 1..range.to - 1] == Content(item.lead, item.body, n, item.pad)
  {
  }

  lemma FrameReplaced(fr: Frame, item: Doc, kept: Doc, n: nat)
    requires item.Group?
    requires fr.open == "{" + item.lead && fr.close == Spaces(item.pad) + "}"
    ensures var range := fr.Range(item.body, n);
            var text := fr.Text(item.body, n);
            && range.from + 1 <= range.to - 1 <= |text|
            && text[..range.from + 1] + "\n" + Render(kept, n) + text[range.to - 1..] ==
               fr.(open := "{" + "\n", close := Spaces(0) + "}").Text(kept, n)
  {
    hide Render;
    var range, text := fr.Range(item.body, n), fr.Text(item.body, n);
    assert text[..range.from + 1] == fr.outside + "{";
    assert text[range.to - 1..] == "}" + fr.after;
  }

  // ---------- Removals elsewhere do not disturb a lookup ----------

  /** The same item, whatever follows it. */
  predicate SameItem(a: Doc, b: Doc) {
    || (a.End? && b.End?)
    || (a.Field? && b.Field? && a.key == b.key && a.value == b.value)
    || (a.Group? && b.Group? && a.key == b.key && a.lead == b.lead && a.body == b.body && a.pad == b.pad &&
        a.comma == b.comma)
  }

  lemma {:induction false} FromAfterRemove(d: Doc, removed: string, key: string)
    requires removed != key
    ensures SameItem(From(RemoveKey(d, removed), key), From(d, key))
  {
    match d
    case End =>
    case Filler(_, rest) => FromAfterRemove(rest, removed, key);
    case Field(_, _, rest) =>
      FromAfterRemove(rest, removed, key);
      FromKey(rest, key);
    case Group(_, _, _, _, _, rest) =>
      FromAfterRemove(rest, removed, key);
      FromKey(rest, key);
  }

  lemma {:induction false} FromAfterRemoves(d: Doc, removed: seq<string>, key: string)
    requires key !in removed
    ensures SameItem(From(RemoveKeys(d, removed), key), From(d, key))
    decreases |removed|
  {
    FromKey(d, key);
    if removed != [] {
      FromAfterRemove(d, removed[0], key);
      FromAfterRemoves(RemoveKey(d, removed[0]), removed[1..], key);
    }
  }

  lemma {:induction false} FromAfterSet(d: Doc, other: string, lead: string, body: Doc, pad: nat, key: string)
    requires other != key
    ensures SameItem(From(SetGroup(d, other, lead, body, pad), key), From(d, key))
  {
    match d
    case End =>
    case Filler(_, rest) => FromAfterSet(rest, other, lead, body, pad, key);
    case Field(_, _, rest) => FromAfterSet(rest, other, lead, body, pad, key);
    case Group(_, _, _, _, _, rest) => FromAfterSet(rest, other, lead, body, pad, key);
  }

  /** The key of the whole text with which a path begins. */
  function Top(path: Path): string
    requires path.In?
  {
    if path.outer.Root? then path.key else Top(path.outer)
  }

  /** Below the same first item, lookups find the same documents. */
  lemma {:induction false} SameTop(f: File, g: File, path: Path)
    requires path.In?
    requires SameItem(From(f.doc, Top(path)), From(g.doc, Top(path)))
    ensures Sub(f, path) == Sub(g, path)
    ensures Resolvable(f, path) == Resolvable(g, path)
  {
    if path.outer.In? {
      SameTop(f, g, path.outer);
    }
  }

  /** Pruning one object of the whole text leaves the lookups that begin with another key as they were. */
  lemma PruneElsewhere(f: File, pruned: string, keys: seq<string>, path: Path)
    requires path.In? && Top(path) != pruned
    ensures Sub(Prune(f, In(Root, pruned), keys), path) == Sub(f, path)
    ensures Resolvable(Prune(f, In(Root, pruned), keys), path) == Resolvable(f, path)
  {
    hide SetGroup, From, RemoveKeys;
    var g := Prune(f, In(Root, pruned), keys);
    if Sub(f, In(Root, pruned)).Some? {
      var item := From(f.doc, pruned);
      var doc := SetGroup(f.doc, pruned, item.lead, RemoveKeys(item.body, keys), item.pad);
      assert Sub(f, Root) == Some(f.doc);
      assert g == Put(f, Root, doc);
      FromAfterSet(f.doc, pruned, item.lead, RemoveKeys(item.body, keys), item.pad, Top(path));
      SameTop(g, f, path);
    }
  }

  lemma PruneTopElsewhere(f: File, keys: seq<string>, path: Path)
    requires path.In? && Top(path) !in keys
    ensures Sub(Prune(f, Root, keys), path) == Sub(f, path)
    ensures Resolvable(Prune(f, Root, keys), path) == Resolvable(f, path)
  {
    FromAfterRemoves(f.doc, keys, Top(path));
    SameTop(Prune(f, Root, keys), f, path);
  }

  // ---------- The passes ----------

  lemma {:induction false} TamerShyKeys(f: File, d: Doc, path: Path, keys: seq<string>)
    requires Tamer(f.doc, d) && ShyKeys(f, path, keys)
    ensures ShyKeys(f.(doc := d), path, keys)
  {
  }

  /** Everything a loop of removals asks of a file. */
  ghost predicate Prunable(f: File, path: Path, keys: seq<string>) {
    WellFormedFile(f) && Resolvable(f, path) && ShyPath(f, path) && ShyKeys(f, path, keys)
  }

  /** A prune elsewhere keeps a file prunable, as long as the lookup stays resolvable. */
  lemma StillPrunable(f: File, pruned: Path, prunedKeys: seq<string>, path: Path, keys: seq<string>)
    requires Prunable(f, path, keys) && Resolvable(Prune(f, pruned, prunedKeys), path)
    ensures Prunable(Prune(f, pruned, prunedKeys), path, keys)
  {
    PruneTamer(f, pruned, prunedKeys);
    var g := Prune(f, pruned, prunedKeys);
    TamerShyPath(f, g.doc, path);
    TamerShyKeys(f, g.doc, path, keys);
  }

  lemma UserKeysSpareObjects()
    ensures "entertainment" !in USER_ONLY_KEYS && "resources" !in USER_ONLY_KEYS
  {
  }

  lemma AdminKeysSpareUsers()
    ensures "users" !in ADMIN_ONLY_KEYS
  {
  }

  lemma PrunableResolves(f: File, path: Path, keys: seq<string>)
    requires Prunable(f, path, keys)
    ensures Resolvable(f, path)
  {
  }

  lemma PruneStep(f: File, path: Path, keys: seq<string>)
    requires Prunable(f, path, keys)
    ensures RemoveEach(FileText(f), path, keys).text == FileText(Prune(f, path, keys))
    ensures RemoveEach(FileText(f), path, keys).Finished? <==> keys == [] || Sub(f, path).Some?
  {
    PruneCommutes(f, path, keys);
  }

  lemma PrunableLookup(f: File, path: Path, keys: seq<string>)
    requires Prunable(f, path, keys)
    ensures Locate(FileText(f), path).Some? <==> Sub(f, path).Some?
  {
    LookupCommutes(f, path);
  }

  lemma PruneMissing(f: File, path: Path, keys: seq<string>)
    ensures Sub(f, path).None? ==> Prune(f, path, keys) == f
  {
  }

  /** Three loops, one after the other: over the whole text, and over two of its objects. */
  lemma ThreeLoops(f: File, keys1: seq<string>, keys2: seq<string>, keys3: seq<string>)
    requires Prunable(f, Root, keys1) && Prunable(f, ENTERTAINMENT, keys2) && Prunable(f, PACKAGES, keys3)
    requires "entertainment" !in keys1 && "resources" !in keys1
    ensures var f2 := Prune(Prune(f, Root, keys1), ENTERTAINMENT, keys2);
            var s2 := RemoveEach(RemoveEach(FileText(f), Root, keys1).text, ENTERTAINMENT, keys2).text;
            && s2 == FileText(f2)
            && (Locate(s2, PACKAGES).Some? <==> Sub(f2, PACKAGES).Some?)
            && RemoveEach(s2, PACKAGES, keys3).text == FileText(Prune(f2, PACKAGES, keys3))
  {
    hide RemoveEach, Prune, Prunable;
    var f1 := Prune(f, Root, keys1);
    PruneStep(f, Root, keys1);
    PruneTopElsewhere(f, keys1, ENTERTAINMENT);
    PruneTopElsewhere(f, keys1, PACKAGES);
    PrunableResolves(f, ENTERTAINMENT, keys2);
    PrunableResolves(f, PACKAGES, keys3);
    StillPrunable(f, Root, keys1, ENTERTAINMENT, keys2);
    StillPrunable(f, Root, keys1, PACKAGES, keys3);

    PruneStep(f1, ENTERTAINMENT, keys2);
    PruneElsewhere(f1, "entertainment", keys2, PACKAGES);
    StillPrunable(f1, ENTERTAINMENT, keys2, PACKAGES, keys3);

    var f2 := Prune(f1, ENTERTAINMENT, keys2);
    PruneStep(f2, PACKAGES, keys3);
    PrunableLookup(f2, PACKAGES, keys3);
  }

  /**
    The admin build: stripping the text of a locale source gives the text of the document without the
    listed keys, and with everything else exactly as it was.
   */
  lemma AdminPassCommutes(f: File)
    requires Prunable(f, Root, USER_ONLY_KEYS)
    requires Prunable(f, ENTERTAINMENT, ADMIN_ENTERTAINMENT_REMOVED_KEYS)
    requires Prunable(f, PACKAGES, DISABLED_PACKAGE_SHARE_KEYS)
    ensures StripAdminOnly(FileText(f)) == FileText(AdminFile(f))
  {
    hide RemoveEach, Prune, Prunable, Locate, Sub;
    UserKeysSpareObjects();
    ThreeLoops(f, USER_ONLY_KEYS, ADMIN_ENTERTAINMENT_REMOVED_KEYS, DISABLED_PACKAGE_SHARE_KEYS);
    var f2 := Prune(Prune(f, Root, USER_ONLY_KEYS), ENTERTAINMENT, ADMIN_ENTERTAINMENT_REMOVED_KEYS);
    PruneMissing(f2, PACKAGES, DISABLED_PACKAGE_SHARE_KEYS);
  }

  /** The keys that stay visible in the user list of the admin object are one-line fields, or missing. */
  ghost predicate KeepsUserScalars(f: File, keys: seq<string>)
    requires Sub(f, ADMIN).Some?
  {
    var item := From(Sub(f, ADMIN).value, "users");
    && ShyPath(f, In(ADMIN, "users"))
    && !item.Field?
    && (item.Group? ==> KeepsScalars(item.lead, item.body, 12, keys))
  }

  /** The user list is untouched by the three loops that precede the last step of the user pass. */
  lemma UserListUntouched(f: File, keys1: seq<string>, keys2: seq<string>, keys3: seq<string>, kept: seq<string>)
    requires Sub(f, ADMIN).Some? && KeepsUserScalars(f, kept) && "users" !in keys1
    ensures var f3 := Prune(Prune(Prune(f, ADMIN, keys1), NAV, keys2), ENTERTAINMENT, keys3);
            Sub(f3, ADMIN).Some? && KeepsUserScalars(f3, kept)
  {
    hide RemoveKeys, From, KeepsScalars;
    var d := Sub(f, ADMIN).value;
    var f1 := Prune(f, ADMIN, keys1);
    var f2 := Prune(f1, NAV, keys2);
    var f3 := Prune(f2, ENTERTAINMENT, keys3);
    PutKeepsFrame(f, ADMIN, RemoveKeys(d, keys1));
    PruneElsewhere(f1, "nav", keys2, ADMIN);
    PruneElsewhere(f2, "entertainment", keys3, ADMIN);
    FromAfterRemoves(d, keys1, "users");
    PruneTamer(f, ADMIN, keys1);
    PruneTamer(f1, NAV, keys2);
    PruneTamer(f2, ENTERTAINMENT, keys3);
    TamerShyPath(f, f1.doc, In(ADMIN, "users"));
    TamerShyPath(f1, f2.doc, In(ADMIN, "users"));
    TamerShyPath(f2, f3.doc, In(ADMIN, "users"));
  }

  /** The loops of the user pass: over the admin object, the navigation and the entertainment object. */
  lemma UserLoops(f: File, keys1: seq<string>, keys2: seq<string>, keys3: seq<string>)
    requires Sub(f, ADMIN).Some?
    requires Prunable(f, ADMIN, keys1) && Prunable(f, NAV, keys2) && Prunable(f, ENTERTAINMENT, keys3)
    ensures RemoveEach(FileText(f), ADMIN, keys1).Finished?
    ensures var f2 := Prune(Prune(f, ADMIN, keys1), NAV, keys2);
            var s2 := RemoveEach(RemoveEach(FileText(f), ADMIN, keys1).text, NAV, keys2).text;
            && s2 == FileText(f2)
            && Prunable(f2, ENTERTAINMENT, keys3)
            && WellFormedFile(Prune(f2, ENTERTAINMENT, keys3))
  {
    hide RemoveEach, Prune, Prunable;
    var f1 := Prune(f, ADMIN, keys1);
    PruneStep(f, ADMIN, keys1);
    PrunableResolves(f, NAV, keys2);
    PrunableResolves(f, ENTERTAINMENT, keys3);
    PruneElsewhere(f, "admin", keys1, NAV);
    PruneElsewhere(f, "admin", keys1, ENTERTAINMENT);
    StillPrunable(f, ADMIN, keys1, NAV, keys2);
    StillPrunable(f, ADMIN, keys1, ENTERTAINMENT, keys3);
    var f2 := Prune(f1, NAV, keys2);
    PruneStep(f1, NAV, keys2);
    PruneElsewhere(f1, "nav", keys2, ENTERTAINMENT);
    StillPrunable(f1, NAV, keys2, ENTERTAINMENT, keys3);
    PrunableWellFormed(f2, ENTERTAINMENT, keys3);
  }

  lemma PrunableWellFormed(f: File, path: Path, keys: seq<string>)
    requires Prunable(f, path, keys)
    ensures WellFormedFile(f) && WellFormedFile(Prune(f, path, keys))
  {
    PruneTamer(f, path, keys);
  }

  /** A loop over a single key is a single removal, or nothing when the object is missing. */
  lemma SingleRemoval(f: File, path: Path, key: string)
    requires Prunable(f, path, [key])
    ensures match Locate(FileText(f), path)
            case None => FileText(Prune(f, path, [key])) == FileText(f)
            case Some(range) =>
              RemoveProperty(FileText(f), key, Level(path), range.from, range.to) ==
              FileText(Prune(f, path, [key]))
  {
    hide RemoveProperty, FileText, Locate;
    PrunableLookup(f, path, [key]);
    if Sub(f, path).Some? {
      OneRemoval(f, path, [key][0]);
      OneKey(Sub(f, path).value, key);
    }
  }

  lemma OneKey(d: Doc, key: string)
    ensures RemoveKeys(d, [key]) == RemoveKey(d, key)
  {
    assert RemoveKeys(RemoveKey(d, key), []) == RemoveKey(d, key);
    assert [key][1..] == [];
  }

  /** All steps of the user pass, for a file that has an admin object. */
  lemma UserSteps(f: File, keys1: seq<string>, keys2: seq<string>, kept: seq<string>)
    requires Sub(f, ADMIN).Some? && KeepsUserScalars(f, kept) && "users" !in keys1
    requires Prunable(f, ADMIN, keys1) && Prunable(f, NAV, keys2) && Prunable(f, ENTERTAINMENT, ["admin"])
    ensures RemoveEach(FileText(f), ADMIN, keys1).Finished?
    ensures var f3 := Prune(Prune(Prune(f, ADMIN, keys1), NAV, keys2), ENTERTAINMENT, ["admin"]);
            var s2 := RemoveEach(RemoveEach(FileText(f), ADMIN, keys1).text, NAV, keys2).text;
            var s3 := match Locate(s2, ENTERTAINMENT)
              case None => s2
              case Some(range) => RemoveProperty(s2, "admin", 8, range.from, range.to);
            && s3 == FileText(f3)
            && Locate(s3, ADMIN).Some?
            && KeepProperties(s3, "users", 8, kept, Locate(s3, ADMIN).value.from, Locate(s3, ADMIN).value.to) ==
               FileText(KeepFields(f3, ADMIN, "users", kept))
  {
    hide Prune, Prunable, Locate, Sub, FileText, KeepProperties, KeepFields, RemoveProperty, RemoveEach;
    UserLoops(f, keys1, keys2, ["admin"]);
    UserListUntouched(f, keys1, keys2, ["admin"], kept);
    var f2 := Prune(Prune(f, ADMIN, keys1), NAV, keys2);
    SingleRemoval(f2, ENTERTAINMENT, "admin");
    KeepCommutes(Prune(f2, ENTERTAINMENT, ["admin"]), ADMIN, "users", kept);
  }

  /**
    The user build: the same for its loops and for the last step, which reduces one list to the
    listed fields.
   */
  lemma UserPassCommutes(f: File)
    requires WellFormedFile(f) && Resolvable(f, ADMIN) && ShyPath(f, ADMIN)
    requires Sub(f, ADMIN).Some? ==>
               && Prunable(f, ADMIN, ADMIN_ONLY_KEYS) && Prunable(f, NAV, ADMIN_ONLY_NAV_KEYS)
               && Prunable(f, ENTERTAINMENT, ["admin"]) && KeepsUserScalars(f, SHARED_USER_KEYS)
    ensures StripUserOnly(FileText(f)) == FileText(UserFile(f))
  {
    hide Prune, Prunable, Locate, Sub, FileText, KeepProperties, KeepFields, RemoveProperty, KeepsUserScalars;
    LookupCommutes(f, ADMIN);
    if Sub(f, ADMIN).Some? {
      hide RemoveEach;
      AdminKeysSpareUsers();
      UserSteps(f, ADMIN_ONLY_KEYS, ADMIN_ONLY_NAV_KEYS, SHARED_USER_KEYS);
    }
  }
}
