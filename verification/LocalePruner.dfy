/**
  The build-time pruner of the locale sources (client/vite.config.ts): a hand-written brace matcher,
  the lookup of an object by key and indentation, the removal of one property, and the two passes
  that remove dozens of properties one after the other, looking the enclosing object up again
  before each removal.
 */
module LocalePruner {
  import opened Lexer
  import opened TextSearch

  // ---------- Matching the head of a property ----------

  /** Keys are plain identifiers: in the regular expressions they stand for themselves. */
  predicate IsKeyChar(c: char) {
    'a' <= c <= 'z' || 'A' <= c <= 'Z' || '0' <= c <= '9' || c == '_'
  }

  predicate IsKey(key: string) {
    key != "" && forall c :: c in key ==> IsKeyChar(c)
  }

  function Spaces(n: nat): (r: string)
    ensures |r| == n && forall c :: c in r ==> c == ' '
  {
    seq(n, _ => ' ')
  }

  /** What the regular expression requires before its trailing `\s*`. */
  function Pattern(n: nat, key: string): string {
    Spaces(n) + key + ":"
  }

  predicate MatchesAt(t: string, p: nat, pattern: string) {
    && p + |pattern| <= |t|
    && (p == 0 || IsLineTerminator(t[p - 1]))
    && t[p..p + |pattern|] == pattern
  }

  /** The leftmost match at or after `from`, or -1. */
  function FirstMatch(t: string, pattern: string, from: nat): (p: int)
    requires from <= |t|
    ensures p == -1 || (from <= p && p + |pattern| <= |t|)
    decreases |t| - from
  {
    if MatchesAt(t, from, pattern) then from
    else if from == |t| then -1
    else FirstMatch(t, pattern, from + 1)
  }

  lemma {:induction false} FirstMatchIsLeftmost(t: string, pattern: string, from: nat)
    requires from <= |t|
    ensures var p := FirstMatch(t, pattern, from);
            && (p == -1 ==> forall q :: from <= q <= |t| ==> !MatchesAt(t, q, pattern))
            && (p >= 0 ==> MatchesAt(t, p, pattern) && forall q :: from <= q < p ==> !MatchesAt(t, q, pattern))
    decreases |t| - from
  {
    if !MatchesAt(t, from, pattern) && from < |t| {
      FirstMatchIsLeftmost(t, pattern, from + 1);
    }
  }

  // ---------- findMatchingBrace ----------

  /** The first position from which the braces opened since `open` are all closed again, or -1. */
  function MatchBrace(s: string, open: nat): (r: int)
    ensures r == -1 || (open <= r < |s| && s[r] == '}')
  {
    if open > |s| then -1 else MatchFrom(s, open, Code, 0)
  }

  function MatchFrom(s: string, i: nat, m: Mode, d: int): (r: int)
    requires i <= |s|
    ensures r == -1 || (i <= r < |s| && s[r] == '}')
    decreases |s| - i
  {
    if i == |s| then -1
    else if Closing(m, d, s[i]) then i
    else MatchFrom(s, i + 1, NextMode(m, s[i]), NextDepth(m, d, s[i]))
  }

  lemma {:induction false} MatchFromIsScan(s: string, i: nat, m: Mode, d: int)
    requires i <= |s|
    ensures match Scan(s[i..], m, d)
            case Closed(p) => MatchFrom(s, i, m, d) == i + p
            case Running(_, _) => MatchFrom(s, i, m, d) == -1
    decreases |s| - i
  {
    if i < |s| {
      assert s[i..][1..] == s[i + 1..];
      MatchFromIsScan(s, i + 1, NextMode(m, s[i]), NextDepth(m, d, s[i]));
    }
  }

  /** Position `r` is the first `}` in code at which the plain folds started at `open` reach depth zero. */
  ghost predicate FirstClose(s: string, open: nat, r: int)
    requires open <= |s|
  {
    && open <= r
    && ClosesAt(s[open..], Code, 0, r - open)
    && forall q :: 0 <= q < r - open ==> !ClosesAt(s[open..], Code, 0, q)
  }

  lemma MatchBraceIsFirstClose(s: string, open: nat, r: int)
    requires open <= |s|
    ensures r >= 0 ==> (MatchBrace(s, open) == r <==> FirstClose(s, open, r))
    ensures MatchBrace(s, open) == -1 <==> forall q :: !FirstClose(s, open, q)
  {
    ScanIsFirstClose(s[open..], Code, 0);
    MatchFromIsScan(s, open, Code, 0);
    var outcome := Scan(s[open..], Code, 0);
    if outcome.Closed? {
      assert FirstClose(s, open, open + outcome.at);
    }
  }

  /** A slash, or a star in a comment, that does not pair with the next character is forgotten. */
  lemma UnpairedForgotten(s: string, i: nat, d: int)
    requires i <= |s|
    ensures (i == |s| || (s[i] != '/' && s[i] != '*')) ==>
              MatchFrom(s, i, Slash, d) == MatchFrom(s, i, Code, d)
    ensures (i == |s| || s[i] != '/') ==> MatchFrom(s, i, Star, d) == MatchFrom(s, i, Block, d)
  {
  }

  function ModeOf(quote: Option<char>, escaped: bool, lineComment: bool, blockComment: bool): Mode {
    if lineComment then Line
    else if blockComment then Block
    else match quote
      case Some(q) => if escaped then Esc(q) else Str(q)
      case None => Code
  }

  method FindMatchingBrace(source: string, openIndex: nat) returns (r: int)
    ensures r == MatchBrace(source, openIndex)
  {
    var depth := 0;
    var quote: Option<char> := None;
    var escaped, lineComment, blockComment := false, false, false;

    var index := openIndex;
    while index < |source|
      invariant openIndex <= |source| ==> openIndex <= index <= |source|
      invariant quote.None? ==> !escaped
      invariant lineComment || blockComment ==> quote.None?
      invariant !(lineComment && blockComment)
      invariant openIndex <= |source| ==>
                  MatchBrace(source, openIndex) ==
                  MatchFrom(source, index, ModeOf(quote, escaped, lineComment, blockComment), depth)
    {
      var c := source[index];
      var hasNext := index + 1 < |source|;

      if lineComment {
        if c == '\n' { lineComment := false; }
        index := index + 1;
        continue;
      }
      if blockComment {
        if c == '*' && hasNext && source[index + 1] == '/' {
          blockComment := false;
          index := index + 1;
        } else {
          UnpairedForgotten(source, index + 1, depth);
        }
        index := index + 1;
        continue;
      }
      if quote.Some? {
        if escaped {
          escaped := false;
          index := index + 1;
          continue;
        }
        if c == '\\' {
          escaped := true;
          index := index + 1;
          continue;
        }
        if c == quote.value { quote := None; }
        index := index + 1;
        continue;
      }

      if c == '/' && hasNext && source[index + 1] == '/' {
        lineComment := true;
        index := index + 2;
        continue;
      }
      if c == '/' && hasNext && source[index + 1] == '*' {
        blockComment := true;
        index := index + 2;
        continue;
      }
      UnpairedForgotten(source, index + 1, depth);
      if c == '"' || c == '\'' || c == '`' {
        quote := Some(c);
        index := index + 1;
        continue;
      }
      if c == '{' { depth := depth + 1; }
      if c == '}' {
        depth := depth - 1;
        if depth == 0 { return index; }
      }
      index := index + 1;
    }
    return -1;
  }

  // ---------- removeLocaleObjectProperty, findLocaleObjectRange, keepLocaleObjectProperties ----------

  /** A stretch of text: the positions from `from` up to, but not including, `to`. */
  datatype Slice = Slice(from: nat, to: nat)

  function Without(source: string, cut: Slice): string
    requires cut.from <= cut.to <= |source|
  {
    source[..cut.from] + source[cut.to..]
  }

  /** Where the value of the property matched at `hit` in the segment begins. */
  function ValueStart(source: string, pattern: string, start: nat, end: nat, hit: nat): (v: nat)
    requires start <= end <= |source| && hit + |pattern| <= end - start
    ensures start + hit + |pattern| <= v <= end
  {
    SkipSpace(source, start + hit + |pattern|, end)
  }

  /** The end of the line on which a value begins, or the end of the range. */
  function ValueLineEnd(source: string, v: nat, end: nat): (e: nat)
    requires v <= end <= |source|
    ensures v <= e <= end
  {
    var lineEnd := IndexOf(source, '\n', v);
    if lineEnd == -1 || lineEnd > end then end else lineEnd
  }

  /** The end of the comma and the line break that may follow an object value. */
  function AfterObject(source: string, objectEnd: nat): (e: nat)
    requires objectEnd < |source|
    ensures objectEnd < e <= |source|
  {
    var e := if objectEnd + 1 < |source| && source[objectEnd + 1] == ',' then objectEnd + 2 else objectEnd + 1;
    if e + 1 < |source| && source[e] == '\r' && source[e + 1] == '\n' then e + 2
    else if e < |source| && source[e] == '\n' then e + 1
    else e
  }

  /** The slice that the removal of a property deletes; empty when it deletes nothing. */
  function PropertyCut(source: string, key: string, n: nat, start: nat, end: nat): (cut: Slice)
    requires start <= end <= |source|
    ensures cut.from <= cut.to <= |source|
  {
    var hit := FirstMatch(source[start..end], Pattern(n, key), 0);
    if hit == -1 then Slice(0, 0) else
    var v := ValueStart(source, Pattern(n, key), start, end, hit);
    var lineEnd := ValueLineEnd(source, v, end);
    var first := SkipSpace(source, v, lineEnd);
    if first < |source| && source[first] == '{' then
      var objectEnd := MatchBrace(source, first);
      if objectEnd == -1 || objectEnd >= end then Slice(0, 0)
      else Slice(start + hit, AfterObject(source, objectEnd))
    else
      Slice(start + hit, if lineEnd < |source| then lineEnd + 1 else lineEnd)
  }

  function RemoveProperty(source: string, key: string, n: nat, start: nat, end: nat): string
    requires start <= end <= |source|
  {
    Without(source, PropertyCut(source, key, n, start, end))
  }

  /** The loop that skips white space before a value never moves: `\s*` has already consumed all of it. */
  lemma ValueNotSpace(source: string, pattern: string, start: nat, end: nat, hit: nat)
    requires start <= end <= |source| && hit + |pattern| <= end - start
    ensures var v := ValueStart(source, pattern, start, end, hit);
            SkipSpace(source, v, ValueLineEnd(source, v, end)) == v
  {
    SkippedIsSpace(source, start + hit + |pattern|, end);
  }

  method RemoveLocaleObjectProperty(source: string, key: string, indent: nat, start: nat, end: nat)
    returns (r: string)
    requires start <= end <= |source|
    ensures r == RemoveProperty(source, key, indent, start, end)
  {
    hide Pattern, FirstMatch, MatchBrace, ValueLineEnd, ValueStart, IsSpace;
    var hit := FirstMatch(source[start..end], Pattern(indent, key), 0);
    if hit == -1 {
      assert PropertyCut(source, key, indent, start, end) == Slice(0, 0);
      return source;
    }
    var propertyStart := start + hit;
    var valueStart := ValueStart(source, Pattern(indent, key), start, end, hit);
    var propertyLineEnd := ValueLineEnd(source, valueStart, end);
    var firstValueChar := valueStart;
    while firstValueChar < propertyLineEnd && IsSpace(source[firstValueChar])
      invariant valueStart <= firstValueChar <= propertyLineEnd
      invariant SkipSpace(source, firstValueChar, propertyLineEnd) ==
                SkipSpace(source, valueStart, propertyLineEnd)
    {
      firstValueChar := firstValueChar + 1;
    }

    if !(firstValueChar < |source| && source[firstValueChar] == '{') {
      var removeEnd := if propertyLineEnd < |source| then propertyLineEnd + 1 else propertyLineEnd;
      assert PropertyCut(source, key, indent, start, end) == Slice(propertyStart, removeEnd);
      return source[..propertyStart] + source[removeEnd..];
    }

    var objectEnd := FindMatchingBrace(source, firstValueChar);
    if objectEnd == -1 || objectEnd >= end {
      assert PropertyCut(source, key, indent, start, end) == Slice(0, 0);
      return source;
    }
    var removeEnd := objectEnd + 1;
    if removeEnd < |source| && source[removeEnd] == ',' { removeEnd := removeEnd + 1; }
    if removeEnd + 1 < |source| && source[removeEnd] == '\r' && source[removeEnd + 1] == '\n' {
      removeEnd := removeEnd + 2;
    } else if removeEnd < |source| && source[removeEnd] == '\n' {
      removeEnd := removeEnd + 1;
    }
    assert removeEnd == AfterObject(source, objectEnd);
    assert PropertyCut(source, key, indent, start, end) == Slice(propertyStart, removeEnd);
    return source[..propertyStart] + source[removeEnd..];
  }

  /** The object found by key and indentation, from its opening brace to just after its closing one. */
  function FindRange(source: string, key: string, n: nat, start: nat, end: nat): (r: Option<Slice>)
    requires start <= end <= |source|
    ensures r.Some? ==>
              && start <= r.value.from < r.value.to <= end
              && source[r.value.from] == '{'
              && MatchBrace(source, r.value.from) == r.value.to - 1
  {
    var hit := FirstMatch(source[start..end], Pattern(n, key), 0);
    if hit == -1 then None else
    var objectStart := IndexOf(source, '{', ValueStart(source, Pattern(n, key), start, end, hit));
    if objectStart == -1 || objectStart >= end then None else
    var objectEnd := MatchBrace(source, objectStart);
    if objectEnd == -1 || objectEnd >= end then None
    else Some(Slice(objectStart, objectEnd + 1))
  }

  method FindLocaleObjectRange(source: string, key: string, indent: nat, start: nat, end: nat)
    returns (r: Option<Slice>)
    requires start <= end <= |source|
    ensures r == FindRange(source, key, indent, start, end)
  {
    var hit := FirstMatch(source[start..end], Pattern(indent, key), 0);
    if hit == -1 {
      return None;
    }
    var valueStart := ValueStart(source, Pattern(indent, key), start, end, hit);
    var objectStart := IndexOf(source, '{', valueStart);
    if objectStart == -1 || objectStart >= end {
      return None;
    }
    var objectEnd := FindMatchingBrace(source, objectStart);
    if objectEnd == -1 || objectEnd >= end {
      return None;
    }
    return Some(Slice(objectStart, objectEnd + 1));
  }

  /**
    The end of what `\s*[^\n]+\n` matches between `low` and the end of the text: the white space is
    taken as far as possible, here up to `e`, and given back one character at a time.
   */
  function RestOfLine(content: string, low: nat, e: nat): (r: Option<nat>)
    requires low <= e <= |content|
    ensures r.Some? ==> low < r.value <= |content|
    decreases e
  {
    if e < |content| && content[e] != '\n' && IndexOf(content, '\n', e) != -1 then
      Some(IndexOf(content, '\n', e) + 1)
    else if e == low then None
    else RestOfLine(content, low, e - 1)
  }

  /** The first line `key: ...` at the given indentation, line break included, or the empty string. */
  function KeptLine(content: string, pattern: string, from: nat): string
    requires from <= |content|
    decreases |content| - from
  {
    var hit := FirstMatch(content, pattern, from);
    if hit == -1 then "" else
    var low := hit + |pattern|;
    match RestOfLine(content, low, SkipSpace(content, low, |content|))
    case Some(end) => content[hit..end]
    case None => if hit == |content| then "" else KeptLine(content, pattern, hit + 1)
  }

  function KeptLines(content: string, n: nat, keys: seq<string>): string {
    if keys == [] then ""
    else KeptLine(content, Pattern(n, keys[0]), 0) + KeptLines(content, n, keys[1..])
  }

  /** The object keeps only the first line of each listed key; nothing changes when there is none. */
  function KeepProperties(source: string, key: string, n: nat, keys: seq<string>, start: nat, end: nat): string
    requires start <= end <= |source|
  {
    match FindRange(source, key, n, start, end)
    case None => source
    case Some(range) =>
      var kept := KeptLines(source[range.from + 1..range.to - 1], n + 4, keys);
      if kept == "" then source
      else source[..range.from + 1] + "\n" + kept + source[range.to - 1..]
  }

  // ---------- The two passes ----------

  const USER_ONLY_KEYS: seq<string> := [
    "freeSite", "publicSite", "wallet", "vipBenefits", "hostingWallet", "friends", "transfers", "transfer",
    "checkin"
  ]

  const ADMIN_ENTERTAINMENT_REMOVED_KEYS: seq<string> := [
    "title", "description", "currentPoints", "convertPoints", "noPointsToConvert", "convertSuccess",
    "convertFailed", "pointsUnit", "tabs", "mainTabs", "comingSoon", "blindbox", "checkinSection", "spin",
    "spinCost", "spinFailed", "selectLottery", "notEnoughPoints", "noActiveLotteries", "prizeList",
    "probability", "remaining", "multiDraw", "multiDrawAgain", "multiDrawFailed", "multiDrawResults",
    "multiDrawStopped", "notEnoughPointsForMulti", "totalDraws", "totalPointsSpent", "badgeUnit",
    "instanceUnit", "multiDrawBadgesTitle", "multiDrawBadgesSubtitle", "continueToMultiResults",
    "congratulations", "betterLuckNextTime", "wonPoints", "wonBalance", "wonBadge", "wonCpu", "wonMemory",
    "wonDisk", "wonTraffic", "lotteryName", "prize", "prizeType", "value", "noRecords", "loadRecordsFailed",
    "loadLotteriesFailed", "pointsLogType", "pointsChange", "pointsAfter", "remark", "noPointsLogs",
    "loadPointsLogsFailed", "pointsLogTypes", "badges"
  ]

  const DISABLED_PACKAGE_SHARE_KEYS: seq<string> := [
    "share", "viewShares", "selectFriend", "selectFriendPlaceholder", "noFriends", "shareSuccess",
    "shareFailed", "confirmUnshare", "unshareSuccess", "unshareFailed", "sharesList", "sharesCount",
    "noShares", "noSharesHint", "sharedAt", "unshare", "searchFriend", "noAvailableFriends", "selectToShare",
    "quotaSettings", "quotaMultiplier", "quotaMultiplierHint", "maxInstances", "maxInstancesHint", "noLimit",
    "instanceUnit", "quotaDisplay", "usageDisplay", "updateQuota", "updateQuotaSuccess", "updateQuotaFailed",
    "shareToFriend", "noFriendsHint", "allFriendsShared", "confirmShare", "editQuota", "editQuotaFor",
    "quotaUpdated", "quotaUpdateFailed", "usageStatus", "instanceCount", "currentUsage", "currentUsageInfo",
    "addShare"
  ]

  const ADMIN_ONLY_KEYS: seq<string> := [
    "statistics", "hosting", "vipRules", "vipBenefits", "mail", "broadcast", "system", "oauth",
    "paymentProviders", "billingManage", "helpManage"
  ]

  const ADMIN_ONLY_NAV_KEYS: seq<string> := [
    "admin", "users", "statistics", "images", "helpManage", "oauth", "broadcast", "paymentProviders",
    "billing", "withdrawals", "telegramSettings", "adminCreateInstance"
  ]

  const SHARED_USER_KEYS: seq<string> := ["active", "banned", "totalRecords"]

  /** The way to an object: a key of the whole text, then a key of the object found there, and so on. */
  datatype Path = Root | In(outer: Path, key: string) {
    function Depth(): nat {
      if Root? then 0 else outer.Depth() + 1
    }
  }

  const ENTERTAINMENT := In(Root, "entertainment")
  const PACKAGES := In(In(Root, "resources"), "packages")
  const ADMIN := In(Root, "admin")
  const NAV := In(Root, "nav")

  /** Where the object at a path is; the keys of the whole text are indented by 4, the next ones by 8. */
  function Locate(source: string, path: Path): (r: Option<Slice>)
    ensures r.Some? ==> r.value.from <= r.value.to <= |source|
  {
    match path
    case Root => Some(Slice(0, |source|))
    case In(outer, key) =>
      match Locate(source, outer)
      case None => None
      case Some(range) => FindRange(source, key, 4 * path.Depth(), range.from, range.to)
  }

  datatype Pass = Finished(text: string) | Stopped(text: string)

  /** Remove keys one by one from the object at `path`, looking it up again each time; stop when it is gone. */
  function RemoveEach(source: string, path: Path, keys: seq<string>): Pass
    decreases |keys|
  {
    if keys == [] then Finished(source) else
    match Locate(source, path)
    case None => Stopped(source)
    case Some(range) =>
      RemoveEach(RemoveProperty(source, keys[0], 4 * path.Depth() + 4, range.from, range.to), path, keys[1..])
  }

  function StripAdminOnly(source: string): string {
    var s1 := RemoveEach(source, Root, USER_ONLY_KEYS).text;
    var s2 := RemoveEach(s1, ENTERTAINMENT, ADMIN_ENTERTAINMENT_REMOVED_KEYS).text;
    if Locate(s2, PACKAGES).None? then s2
    else RemoveEach(s2, PACKAGES, DISABLED_PACKAGE_SHARE_KEYS).text
  }

  function StripUserOnly(source: string): string {
    match RemoveEach(source, ADMIN, ADMIN_ONLY_KEYS)
    case Stopped(s1) => s1
    case Finished(s1) =>
      var s2 := RemoveEach(s1, NAV, ADMIN_ONLY_NAV_KEYS).text;
      var s3 := match Locate(s2, ENTERTAINMENT)
        case None => s2
        case Some(range) => RemoveProperty(s2, "admin", 8, range.from, range.to);
      match Locate(s3, ADMIN)
      case None => s3
      case Some(range) => KeepProperties(s3, "users", 8, SHARED_USER_KEYS, range.from, range.to)
  }

  lemma RemoveEachStep(source: string, path: Path, keys: seq<string>, i: nat)
    requires i < |keys|
    ensures RemoveEach(source, path, keys[i..]) ==
            match Locate(source, path)
            case None => Stopped(source)
            case Some(range) =>
              RemoveEach(
                RemoveProperty(source, keys[i], 4 * path.Depth() + 4, range.from, range.to), path, keys[i + 1..])
  {
    hide RemoveProperty, Locate;
    assert keys[i..][1..] == keys[i + 1..];
  }

  /** One loop of a pass: the enclosing object is looked up before every removal. */
  method RemoveListedKeys(source: string, path: Path, keys: seq<string>)
    returns (stripped: string, stopped: bool)
    ensures RemoveEach(source, path, keys) == if stopped then Stopped(stripped) else Finished(stripped)
  {
    hide RemoveProperty, Locate;
    stripped := source;
    assert keys[0..] == keys;
    for i := 0 to |keys|
      invariant RemoveEach(stripped, path, keys[i..]) == RemoveEach(source, path, keys)
    {
      var range := LocateObject(stripped, path);
      RemoveEachStep(stripped, path, keys, i);
      if range.None? {
        return stripped, true;
      }
      stripped := RemoveLocaleObjectProperty(
        stripped, keys[i], 4 * path.Depth() + 4, range.value.from, range.value.to);
    }
    return stripped, false;
  }

  method LocateObject(source: string, path: Path) returns (r: Option<Slice>)
    ensures r == Locate(source, path)
  {
    match path
    case Root =>
      return Some(Slice(0, |source|));
    case In(outer, key) =>
      var range := LocateObject(source, outer);
      if range.None? {
        return None;
      }
      r := FindLocaleObjectRange(source, key, 4 * path.Depth(), range.value.from, range.value.to);
  }

  method KeepLocaleObjectProperties(
    source: string, key: string, indent: nat, keepKeys: seq<string>, start: nat, end: nat)
    returns (r: string)
    requires start <= end <= |source|
    ensures r == KeepProperties(source, key, indent, keepKeys, start, end)
  {
    hide FindRange, KeptLines, MatchBrace;
    var range := FindLocaleObjectRange(source, key, indent, start, end);
    if range.None? {
      return source;
    }
    var contentStart, contentEnd := range.value.from + 1, range.value.to - 1;
    var kept := KeptLines(source[contentStart..contentEnd], indent + 4, keepKeys);
    if kept == "" {
      return source;
    }
    return source[..contentStart] + "\n" + kept + source[contentEnd..];
  }

  method StripAdminOnlyLocaleMessages(source: string) returns (stripped: string)
    ensures stripped == StripAdminOnly(source)
  {
    var stopped;
    stripped, stopped := RemoveListedKeys(source, Root, USER_ONLY_KEYS);
    stripped, stopped := RemoveListedKeys(stripped, ENTERTAINMENT, ADMIN_ENTERTAINMENT_REMOVED_KEYS);
    var packages := LocateObject(stripped, PACKAGES);
    if packages.None? {
      return;
    }
    stripped, stopped := RemoveListedKeys(stripped, PACKAGES, DISABLED_PACKAGE_SHARE_KEYS);
  }

  method StripUserOnlyLocaleMessages(source: string) returns (stripped: string)
    ensures stripped == StripUserOnly(source)
  {
    var stopped;
    stripped, stopped := RemoveListedKeys(source, ADMIN, ADMIN_ONLY_KEYS);
    if stopped {
      return;
    }
    stripped, stopped := RemoveListedKeys(stripped, NAV, ADMIN_ONLY_NAV_KEYS);
    var entertainment := LocateObject(stripped, ENTERTAINMENT);
    if entertainment.Some? {
      stripped := RemoveLocaleObjectProperty(
        stripped, "admin", 8, entertainment.value.from, entertainment.value.to);
    }
    var admin := LocateObject(stripped, ADMIN);
    if admin.None? {
      return;
    }
    stripped := KeepLocaleObjectProperties(
      stripped, "users", 8, SHARED_USER_KEYS, admin.value.from, admin.value.to);
  }
}
