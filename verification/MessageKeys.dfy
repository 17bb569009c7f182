/**
  Locale messages as trees, the dotted keys that address their strings, and the check that several locales
  define the same keys (server/scripts/test-frontend-i18n-keys.ts).
 */
module MessageKeys {

  /** A message value: a string, an object with its own entries, or anything else, `undefined` included. */
  datatype Node = Text(text: string) | Branch(entries: Entries) | Other

  datatype Entries = Done | Entry(key: string, value: Node, rest: Entries)

  predicate HasKey(e: Entries, key: string) {
    e.Entry? && (e.key == key || HasKey(e.rest, key))
  }

  function Lookup(e: Entries, key: string): Node {
    if e.Done? then Other else if e.key == key then e.value else Lookup(e.rest, key)
  }

  /** Keys are nonempty and dot-free; an object has each of its keys once. */
  predicate Keyed(n: Node) {
    n.Branch? ==> KeyedEntries(n.entries)
  }

  predicate KeyedEntries(e: Entries) {
    e.Entry? ==>
      && e.key != "" && '.' !in e.key && !HasKey(e.rest, e.key)
      && Keyed(e.value) && KeyedEntries(e.rest)
  }

  // ---------- Resolving a dotted key ----------

  /** The position of the first dot, or the length. */
  function Dot(s: string): (d: nat)
    ensures d <= |s| && (d < |s| ==> s[d] == '.') && '.' !in s[..d]
  {
    if s == "" || s[0] == '.' then 0 else 1 + Dot(s[1..])
  }

  function Split(s: string): (parts: seq<string>)
    ensures parts != []
    decreases |s|
  {
    if Dot(s) == |s| then [s] else [s[..Dot(s)]] + Split(s[Dot(s) + 1..])
  }

  function Walk(n: Node, parts: seq<string>): Node
    decreases |parts|
  {
    if parts == [] then n
    else if n.Branch? then Walk(Lookup(n.entries, parts[0]), parts[1..])
    else Other
  }

  function Resolve(n: Node, key: string): Node {
    Walk(n, Split(key))
  }

  method ResolveMessage(source: Node, key: string) returns (current: Node)
    ensures current == Resolve(source, key)
  {
    current := source;
    var parts := Split(key);
    for i := 0 to |parts|
      invariant Walk(source, parts) == Walk(current, parts[i..])
    {
      if !current.Branch? || !HasKey(current.entries, parts[i]) {
        Missing(current, parts[i..]);
        return Other;
      }
      current := Lookup(current.entries, parts[i]);
      assert parts[i..][1..] == parts[i + 1..];
    }
  }

  lemma Missing(n: Node, parts: seq<string>)
    requires parts != [] && (n.Branch? ==> !HasKey(n.entries, parts[0]))
    ensures Walk(n, parts) == Other
  {
    if n.Branch? {
      LookupMissing(n.entries, parts[0]);
    }
  }

  lemma {:induction false} LookupMissing(e: Entries, key: string)
    requires !HasKey(e, key)
    ensures Lookup(e, key) == Other
  {
    if e.Entry? {
      LookupMissing(e.rest, key);
    }
  }

  // ---------- Listing the keys ----------

  /** What precedes a key under the given prefix; the empty prefix adds no dot. */
  function Lead(prefix: string): string {
    if prefix == "" then "" else prefix + "."
  }

  function Flatten(n: Node, prefix: string): seq<string>
    decreases n, 0
  {
    if n.Branch? then FlattenEntries(n.entries, prefix) else []
  }

  function FlattenEntries(e: Entries, prefix: string): seq<string>
    decreases e, 0
  {
    if e.Done? then [] else FlattenEntry(e.key, e.value, prefix) + FlattenEntries(e.rest, prefix)
  }

  function FlattenEntry(key: string, value: Node, prefix: string): seq<string>
    decreases value, 1
  {
    var path := Lead(prefix) + key;
    if value.Text? then [path] else Flatten(value, path)
  }

  // ---------- Flatten and resolve are inverse ----------

  function Head(s: string): string {
    s[..Dot(s)]
  }

  lemma {:induction false} DotAt(key: string, rest: string)
    requires '.' !in key && (rest == "" || rest[0] == '.')
    ensures Dot(key + rest) == |key|
  {
    if key == "" {
      assert key + rest == rest;
    } else {
      assert (key + rest)[1..] == key[1..] + rest;
      DotAt(key[1..], rest);
    }
  }

  /** A listed path starts with the lead and goes on with one of the keys, up to its end or a dot. */
  lemma {:induction false} PathShape(e: Entries, prefix: string, path: string)
    requires KeyedEntries(e) && path in FlattenEntries(e, prefix)
    ensures Lead(prefix) <= path && HasKey(e, Head(path[|Lead(prefix)|..]))
    decreases e
  {
    if path in FlattenEntries(e.rest, prefix) {
      PathShape(e.rest, prefix, path);
    } else {
      EntryShape(e.key, e.value, prefix, path);
    }
  }

  lemma {:induction false} EntryShape(key: string, value: Node, prefix: string, path: string)
    requires key != "" && '.' !in key && Keyed(value) && path in FlattenEntry(key, value, prefix)
    ensures Lead(prefix) <= path && Head(path[|Lead(prefix)|..]) == key
    decreases value, 0
  {
    var lead := Lead(prefix);
    if value.Text? {
      assert path[|lead|..] == key + "";
      DotAt(key, "");
    } else {
      PathShape(value.entries, lead + key, path);
      assert Lead(lead + key) == lead + key + ".";
      assert (lead + key + ".")[|lead|..] == key + ".";
      assert path[|lead|..] == key + path[|lead| + |key|..];
      DotAt(key, path[|lead| + |key|..]);
    }
  }

  lemma {:induction false} ListedIffResolvedEntries(e: Entries, prefix: string, key: string)
    requires KeyedEntries(e)
    ensures Lead(prefix) + key in FlattenEntries(e, prefix) <==> Resolve(Branch(e), key).Text?
    decreases e
  {
    hide Dot;
    var path := Lead(prefix) + key;
    assert path[|Lead(prefix)|..] == key;
    ResolveSteps(e, key);
    if e.Done? {
    } else if Head(key) == e.key {
      EntryListed(e.key, e.value, prefix, key);
      if path in FlattenEntries(e.rest, prefix) {
        PathShape(e.rest, prefix, path);
      }
    } else {
      if path in FlattenEntry(e.key, e.value, prefix) {
        EntryShape(e.key, e.value, prefix, path);
      }
      ListedIffResolvedEntries(e.rest, prefix, key);
      ResolveSteps(e.rest, key);
    }
  }

  /** The rest of a key after its first part. */
  function Tail(s: string): seq<string> {
    if Dot(s) == |s| then [] else Split(s[Dot(s) + 1..])
  }

  lemma ResolveSteps(e: Entries, key: string)
    ensures Resolve(Branch(e), key) == Walk(Lookup(e, Head(key)), Tail(key))
  {
    assert Split(key)[0] == Head(key) && Split(key)[1..] == Tail(key);
  }

  lemma {:induction false} EntryListed(key: string, value: Node, prefix: string, full: string)
    requires key != "" && '.' !in key && Keyed(value) && Head(full) == key
    ensures Lead(prefix) + full in FlattenEntry(key, value, prefix) <==> Walk(value, Tail(full)).Text?
    decreases value, 0
  {
    hide Head;
    var path := Lead(prefix) + key;
    if Dot(full) == |full| {
      assert full == key by { HeadWhole(full); }
      if !value.Text? && path in Flatten(value, path) {
        PathShape(value.entries, path, path);
      }
    } else {
      var rest := full[Dot(full) + 1..];
      HeadAndRest(full);
      assert Lead(path) + rest == Lead(prefix) + full by {
        assert Lead(prefix) + (key + "." + rest) == (Lead(prefix) + key) + "." + rest;
      }
      if value.Branch? {
        ListedIffResolvedEntries(value.entries, path, rest);
      } else if value.Text? {
        assert Lead(prefix) + full != path by { assert |full| > |key|; }
      }
    }
  }

  lemma HeadWhole(full: string)
    requires Dot(full) == |full|
    ensures Head(full) == full
  {
  }

  lemma CutAt(s: string, d: nat)
    requires d < |s| && s[d] == '.'
    ensures s == s[..d] + "." + s[d + 1..]
  {
  }

  lemma HeadAndRest(full: string)
    requires Dot(full) < |full|
    ensures full == Head(full) + "." + full[Dot(full) + 1..]
  {
    hide Dot, Split, Tail;
    CutAt(full, Dot(full));
  }

  /** A key is listed exactly when it resolves to a string. */
  lemma ListedIffResolved(n: Node, prefix: string, key: string)
    requires Keyed(n)
    ensures Lead(prefix) + key in Flatten(n, prefix) <==> Resolve(n, key).Text?
  {
    if n.Branch? {
      ListedIffResolvedEntries(n.entries, prefix, key);
    }
  }

  // ---------- No key is listed twice ----------

  lemma {:induction false} EntriesListedOnce(e: Entries, prefix: string, path: string)
    requires KeyedEntries(e)
    ensures multiset(FlattenEntries(e, prefix))[path] <= 1
    decreases e, 0
  {
    if e.Done? {
      assert FlattenEntries(e, prefix) == [];
    } else {
      var first, others := FlattenEntry(e.key, e.value, prefix), FlattenEntries(e.rest, prefix);
      EntriesListedOnce(e.rest, prefix, path);
      if !e.value.Text? {
        ListedOnce(e.value, Lead(prefix) + e.key, path);
      }
      if path in first && path in others {
        EntryShape(e.key, e.value, prefix, path);
        PathShape(e.rest, prefix, path);
        assert false;
      }
      assert multiset(first + others) == multiset(first) + multiset(others);
    }
  }

  lemma {:induction false} ListedOnce(n: Node, prefix: string, path: string)
    requires Keyed(n)
    ensures multiset(Flatten(n, prefix))[path] <= 1
    decreases n, 0
  {
    if n.Branch? {
      EntriesListedOnce(n.entries, prefix, path);
    }
  }

  // ---------- Sorting gives a canonical list ----------

  predicate Leq(a: string, b: string) {
    a == "" || (b != "" && (a[0] < b[0] || (a[0] == b[0] && Leq(a[1..], b[1..]))))
  }

  lemma {:induction false} LeqTotal(a: string, b: string)
    ensures Leq(a, b) || Leq(b, a)
    ensures Leq(a, b) && Leq(b, a) ==> a == b
  {
    if a != "" && b != "" {
      LeqTotal(a[1..], b[1..]);
      assert a == [a[0]] + a[1..] && b == [b[0]] + b[1..];
    }
  }

  lemma {:induction false} LeqTransitive(a: string, b: string, c: string)
    requires Leq(a, b) && Leq(b, c)
    ensures Leq(a, c)
  {
    if a != "" && a[0] == b[0] == c[0] {
      LeqTransitive(a[1..], b[1..], c[1..]);
    }
  }

  function Insert(x: string, s: seq<string>): seq<string> {
    if s == [] || Leq(x, s[0]) then [x] + s else [s[0]] + Insert(x, s[1..])
  }

  /** The sorted list, in the order of character codes. */
  function Sort(s: seq<string>): seq<string> {
    if s == [] then [] else Insert(s[0], Sort(s[1..]))
  }

  /** The head is least and the tail is sorted. */
  predicate Sorted(s: seq<string>) {
    s != [] ==> (forall x :: x in s[1..] ==> Leq(s[0], x)) && Sorted(s[1..])
  }

  lemma {:induction false} InsertKeeps(x: string, s: seq<string>)
    requires Sorted(s)
    ensures Sorted(Insert(x, s)) && multiset(Insert(x, s)) == multiset(s) + multiset{x}
  {
    if s == [] {
    } else if Leq(x, s[0]) {
      assert s == [s[0]] + s[1..];
      forall y | y in s ensures Leq(x, y) {
        if y != s[0] {
          LeqTransitive(x, s[0], y);
        }
      }
      assert ([x] + s)[1..] == s;
    } else {
      InsertKeeps(x, s[1..]);
      var t := Insert(x, s[1..]);
      LeqTotal(x, s[0]);
      assert s == [s[0]] + s[1..];
      forall y | y in t ensures Leq(s[0], y) {
        assert y in multiset(t);
      }
      assert ([s[0]] + t)[1..] == t;
    }
  }

  lemma {:induction false} SortKeeps(s: seq<string>)
    ensures Sorted(Sort(s)) && multiset(Sort(s)) == multiset(s)
  {
    if s != [] {
      SortKeeps(s[1..]);
      InsertKeeps(s[0], Sort(s[1..]));
      assert s == [s[0]] + s[1..];
    }
  }

  lemma {:induction false} SortedUnique(a: seq<string>, b: seq<string>)
    requires Sorted(a) && Sorted(b) && multiset(a) == multiset(b)
    ensures a == b
  {
    if a == [] || b == [] {
      assert |multiset(a)| == |multiset(b)|;
    } else {
      hide Leq;
      assert a == [a[0]] + a[1..] && b == [b[0]] + b[1..];
      assert a[0] in multiset(b) && b[0] in multiset(a);
      LeqTotal(a[0], b[0]);
      assert a[0] == b[0];
      assert multiset(a[1..]) == multiset(a) - multiset{a[0]};
      SortedUnique(a[1..], b[1..]);
    }
  }

  /** Sorted lists agree exactly when the lists hold the same elements equally often. */
  lemma SortAgreesIff(a: seq<string>, b: seq<string>)
    ensures Sort(a) == Sort(b) <==> multiset(a) == multiset(b)
  {
    SortKeeps(a);
    SortKeeps(b);
    if multiset(a) == multiset(b) {
      SortedUnique(Sort(a), Sort(b));
    }
  }

  // ---------- The string leaves of a namespace in the whole tree ----------

  predicate IsLeaf(root: Node, namespace: string, key: string) {
    Resolve(root, namespace + "." + key).Text?
  }

  lemma {:induction false} SplitJoins(a: string, b: string)
    ensures Split(a + "." + b) == Split(a) + Split(b)
    decreases |a|
  {
    hide Dot;
    var s, d := a + "." + b, Dot(a);
    if d == |a| {
      assert s == a + ("." + b);
      DotAt(a, "." + b);
      assert s[..d] == a && s[d + 1..] == b;
    } else {
      assert s == a[..d] + (a[d..] + "." + b);
      DotAt(a[..d], a[d..] + "." + b);
      assert s[d + 1..] == a[d + 1..] + "." + b;
      SplitJoins(a[d + 1..], b);
    }
  }

  lemma {:induction false} WalkJoins(n: Node, p: seq<string>, q: seq<string>)
    requires q != []
    ensures Walk(n, p + q) == Walk(Walk(n, p), q)
    decreases |p|
  {
    if p == [] {
      assert p + q == q;
    } else if n.Branch? {
      assert (p + q)[1..] == p[1..] + q;
      WalkJoins(Lookup(n.entries, p[0]), p[1..], q);
    }
  }

  lemma {:induction false} KeyedWalk(n: Node, parts: seq<string>)
    requires Keyed(n)
    ensures Keyed(Walk(n, parts))
    decreases |parts|
  {
    if parts != [] && n.Branch? {
      KeyedLookup(n.entries, parts[0]);
      KeyedWalk(Lookup(n.entries, parts[0]), parts[1..]);
    }
  }

  lemma {:induction false} KeyedLookup(e: Entries, key: string)
    requires KeyedEntries(e)
    ensures Keyed(Lookup(e, key))
  {
    if e.Entry? && e.key != key {
      KeyedLookup(e.rest, key);
    }
  }

  /** The keys of a namespace, listed with its name in front, are the string leaves below it in the whole tree. */
  lemma ListedIffLeaf(root: Node, namespace: string, key: string)
    requires Keyed(root) && namespace != ""
    ensures namespace + "." + key in Flatten(Resolve(root, namespace), namespace) <==> IsLeaf(root, namespace, key)
  {
    hide Flatten, Split, Walk;
    SplitJoins(namespace, key);
    WalkJoins(root, Split(namespace), Split(key));
    KeyedWalk(root, Split(namespace));
    ListedIffResolved(Resolve(root, namespace), namespace, key);
  }

  // ---------- When listing and resolving agree ----------

  /** An object has each of its keys once. */
  predicate Distinct(n: Node) {
    n.Branch? ==> DistinctEntries(n.entries)
  }

  predicate DistinctEntries(e: Entries) {
    e.Entry? ==> !HasKey(e.rest, e.key) && Distinct(e.value) && DistinctEntries(e.rest)
  }

  predicate HasText(n: Node) {
    n.Text? || (n.Branch? && HasTextIn(n.entries))
  }

  predicate HasTextIn(e: Entries) {
    e.Entry? && (HasText(e.value) || HasTextIn(e.rest))
  }

  /** Every string is reached through keys without dots. */
  predicate Clean(n: Node) {
    n.Branch? ==> CleanEntries(n.entries)
  }

  predicate CleanEntries(e: Entries) {
    e.Entry? ==> (HasText(e.value) ==> '.' !in e.key) && Clean(e.value) && CleanEntries(e.rest)
  }

  /** How many strings are reached through keys that join to the given one. */
  function Leaves(n: Node, key: string): nat
    decreases n, 0
  {
    if n.Branch? then LeavesIn(n.entries, key) else 0
  }

  function LeavesIn(e: Entries, key: string): nat
    decreases e, 0
  {
    if e.Done? then 0 else LeavesAt(e.key, e.value, key) + LeavesIn(e.rest, key)
  }

  function LeavesAt(k: string, value: Node, key: string): nat
    decreases value, 1
  {
    if value.Text? then if key == k then 1 else 0
    else if k + "." <= key then Leaves(value, key[|k| + 1..])
    else 0
  }

  /** Under a name in front, a key is listed as often as there are such strings. */
  lemma {:induction false} ListedPerLeaf(n: Node, prefix: string, key: string)
    requires prefix != ""
    ensures multiset(Flatten(n, prefix))[prefix + "." + key] == Leaves(n, key)
    decreases n, 0
  {
    if n.Branch? {
      ListedPerLeafIn(n.entries, prefix, key);
    }
  }

  lemma {:induction false} ListedPerLeafIn(e: Entries, prefix: string, key: string)
    requires prefix != ""
    ensures multiset(FlattenEntries(e, prefix))[prefix + "." + key] == LeavesIn(e, key)
    decreases e, 0
  {
    if e.Done? {
      assert FlattenEntries(e, prefix) == [];
    } else {
      var first, others := FlattenEntry(e.key, e.value, prefix), FlattenEntries(e.rest, prefix);
      ListedPerLeafAt(e.key, e.value, prefix, key);
      ListedPerLeafIn(e.rest, prefix, key);
      assert multiset(first + others) == multiset(first) + multiset(others);
    }
  }

  lemma {:induction false} ListedPerLeafAt(k: string, value: Node, prefix: string, key: string)
    requires prefix != ""
    ensures multiset(FlattenEntry(k, value, prefix))[prefix + "." + key] == LeavesAt(k, value, key)
    decreases value, 1
  {
    var path, full := Lead(prefix) + k, prefix + "." + key;
    if value.Text? {
      assert full == path <==> key == k by { SameBehind(prefix + ".", key, k); }
    } else if k + "." <= key {
      var rest := key[|k| + 1..];
      assert key == k + "." + rest;
      assert full == path + "." + rest;
      ListedPerLeaf(value, path, rest);
    } else if full in Flatten(value, path) {
      FlattenBehind(value, path, full);
      SliceBehind(prefix, key, k);
    }
  }

  lemma SameBehind(lead: string, a: string, b: string)
    ensures lead + a == lead + b <==> a == b
  {
    assert (lead + a)[|lead|..] == a && (lead + b)[|lead|..] == b;
  }

  lemma SliceBehind(prefix: string, key: string, k: string)
    requires prefix + "." + k + "." <= prefix + "." + key
    ensures k + "." <= key
  {
    var lead := prefix + ".";
    assert (lead + key)[|lead|..][..|k| + 1] == k + "." by {
      assert lead + k + "." == lead + (k + ".");
      assert (lead + key)[..|lead| + |k| + 1] == lead + (k + ".");
    }
    assert (lead + key)[|lead|..] == key;
  }

  /** Whatever is listed under a path has it and a dot in front. */
  lemma {:induction false} FlattenBehind(n: Node, path: string, full: string)
    requires path != "" && full in Flatten(n, path)
    ensures path + "." <= full
    decreases n, 0
  {
    FlattenBehindIn(n.entries, path, full);
  }

  lemma {:induction false} FlattenBehindIn(e: Entries, path: string, full: string)
    requires path != "" && full in FlattenEntries(e, path)
    ensures path + "." <= full
    decreases e, 0
  {
    if full in FlattenEntries(e.rest, path) {
      FlattenBehindIn(e.rest, path, full);
    } else if !e.value.Text? {
      FlattenBehind(e.value, path + "." + e.key, full);
    }
  }

  /** A string that resolves is one of those reached. */
  lemma {:induction false} ResolvedIsLeaf(e: Entries, key: string)
    ensures Resolve(Branch(e), key).Text? ==> LeavesIn(e, key) >= 1
    decreases e
  {
    hide Dot;
    ResolveSteps(e, key);
    if e.Entry? {
      ResolveSteps(e.rest, key);
      if Head(key) == e.key {
        EntryResolved(e.key, e.value, key);
      } else {
        ResolvedIsLeaf(e.rest, key);
      }
    }
  }

  lemma {:induction false} EntryResolved(k: string, value: Node, key: string)
    requires Head(key) == k
    ensures Walk(value, Tail(key)).Text? ==> LeavesAt(k, value, key) >= 1
    decreases value
  {
    if Dot(key) == |key| {
      HeadWhole(key);
    } else if value.Branch? {
      HeadAndRest(key);
      var rest := key[Dot(key) + 1..];
      assert key[|k| + 1..] == rest;
      ResolvedIsLeaf(value.entries, rest);
    }
  }

  /** When every string is reached through keys without dots, each of them resolves, and only these. */
  lemma {:induction false} CleanLeaves(e: Entries, key: string)
    requires DistinctEntries(e) && CleanEntries(e)
    ensures LeavesIn(e, key) == if Resolve(Branch(e), key).Text? then 1 else 0
    decreases e
  {
    hide Dot;
    ResolveSteps(e, key);
    if e.Entry? {
      ResolveSteps(e.rest, key);
      CleanLeaves(e.rest, key);
      CleanEntry(e.key, e.value, key);
      if Head(key) == e.key {
        LookupMissing(e.rest, Head(key));
      }
    }
  }

  lemma {:induction false} CleanEntry(k: string, value: Node, key: string)
    requires Distinct(value) && Clean(value) && (HasText(value) ==> '.' !in k)
    ensures LeavesAt(k, value, key) == if Head(key) == k && Walk(value, Tail(key)).Text? then 1 else 0
    decreases value
  {
    if !HasText(value) {
      NoLeaves(value, if k + "." <= key then key[|k| + 1..] else "");
      NoText(value, Tail(key));
    } else if value.Text? {
      if key == k {
        assert key == k + "";
        DotAt(k, "");
      } else if Dot(key) == |key| {
        HeadWhole(key);
      }
    } else if k + "." <= key {
      var rest := key[|k| + 1..];
      assert key == k + ("." + rest);
      DotAt(k, "." + rest);
      CleanLeaves(value.entries, rest);
    } else if Dot(key) == |key| {
      assert Tail(key) == [];
    } else {
      HeadAndRest(key);
    }
  }

  lemma {:induction false} NoLeaves(n: Node, key: string)
    requires !HasText(n)
    ensures Leaves(n, key) == 0
    decreases n, 0
  {
    if n.Branch? {
      NoLeavesIn(n.entries, key);
    }
  }

  lemma {:induction false} NoLeavesIn(e: Entries, key: string)
    requires !HasTextIn(e)
    ensures LeavesIn(e, key) == 0
    decreases e, 0
  {
    if e.Entry? {
      NoLeavesIn(e.rest, key);
      if e.key + "." <= key {
        NoLeaves(e.value, key[|e.key| + 1..]);
      }
    }
  }

  lemma {:induction false} NoText(n: Node, parts: seq<string>)
    requires !HasText(n)
    ensures !Walk(n, parts).Text?
    decreases |parts|
  {
    if parts != [] && n.Branch? {
      NoTextBelow(n.entries, parts[0]);
      NoText(Lookup(n.entries, parts[0]), parts[1..]);
    }
  }

  lemma {:induction false} NoTextBelow(e: Entries, key: string)
    requires !HasTextIn(e)
    ensures !HasText(Lookup(e, key))
  {
    if e.Entry? {
      NoTextBelow(e.rest, key);
    }
  }

  /** A string below gives some key. */
  lemma {:induction false} SomeLeaf(e: Entries) returns (key: string)
    requires HasTextIn(e)
    ensures LeavesIn(e, key) >= 1
    decreases e
  {
    if !HasText(e.value) {
      key := SomeLeaf(e.rest);
    } else if e.value.Text? {
      key := e.key;
    } else {
      var rest := SomeLeaf(e.value.entries);
      key := e.key + "." + rest;
      LeavesBelow(e.key, e.value, rest);
    }
  }

  lemma LeavesBelow(k: string, value: Node, rest: string)
    requires !value.Text?
    ensures LeavesAt(k, value, k + "." + rest) == Leaves(value, rest)
  {
    assert (k + "." + rest)[|k| + 1..] == rest;
  }

  /** A string reached through a key with a dot is listed under a key that does not resolve, or twice. */
  lemma {:induction false} UncleanDiffers(e: Entries) returns (key: string)
    requires DistinctEntries(e) && !CleanEntries(e)
    ensures LeavesIn(e, key) > (if Resolve(Branch(e), key).Text? then 1 else 0)
    decreases e
  {
    hide Dot;
    if !CleanEntries(e.rest) {
      key := UncleanDiffers(e.rest);
      UncleanRest(e, key);
    } else if HasText(e.value) && '.' in e.key {
      key := LeafAt(e.key, e.value);
      DottedFirst(e, key);
    } else {
      UncleanHasText(e.value);
      var rest := UncleanDiffers(e.value.entries);
      key := e.key + "." + rest;
      UncleanBelow(e, rest);
    }
  }

  lemma UncleanBelow(e: Entries, rest: string)
    requires e.Entry? && e.value.Branch? && '.' !in e.key
    requires LeavesIn(e.value.entries, rest) > (if Resolve(e.value, rest).Text? then 1 else 0)
    ensures LeavesIn(e, e.key + "." + rest) > (if Resolve(Branch(e), e.key + "." + rest).Text? then 1 else 0)
  {
    var key := e.key + "." + rest;
    LeavesBelow(e.key, e.value, rest);
    assert key == e.key + ("." + rest);
    DotAt(e.key, "." + rest);
    assert key[|e.key| + 1..] == rest;
    hide Dot, LeavesAt;
    ResolveSteps(e, key);
    assert LeavesIn(e, key) >= LeavesAt(e.key, e.value, key);
  }

  lemma LeafAt(k: string, value: Node) returns (key: string)
    requires HasText(value)
    ensures LeavesAt(k, value, key) >= 1 && k <= key
  {
    if value.Text? {
      key := k;
    } else {
      var rest := SomeLeaf(value.entries);
      key := k + "." + rest;
      LeavesBelow(k, value, rest);
    }
  }

  /** A key that begins with a dotted key does not resolve through that key. */
  lemma DottedFirst(e: Entries, key: string)
    requires e.Entry? && '.' in e.key && e.key <= key && LeavesAt(e.key, e.value, key) >= 1
    ensures LeavesIn(e, key) > (if Resolve(Branch(e), key).Text? then 1 else 0)
  {
    hide Dot;
    assert Head(key) != e.key by {
      HeadHasNoDot(key);
    }
    ResolveSteps(e, key);
    ResolveSteps(e.rest, key);
    ResolvedIsLeaf(e.rest, key);
  }

  lemma HeadHasNoDot(key: string)
    ensures '.' !in Head(key)
  {
  }

  lemma UncleanRest(e: Entries, key: string)
    requires e.Entry? && DistinctEntries(e)
    requires LeavesIn(e.rest, key) > (if Resolve(Branch(e.rest), key).Text? then 1 else 0)
    ensures LeavesIn(e, key) > (if Resolve(Branch(e), key).Text? then 1 else 0)
  {
    hide Dot;
    ResolveSteps(e, key);
    ResolveSteps(e.rest, key);
    if Head(key) == e.key {
      EntryResolved(e.key, e.value, key);
    }
  }

  lemma {:induction false} UncleanHasText(n: Node)
    requires !Clean(n)
    ensures HasText(n)
    decreases n, 0
  {
    UncleanHasTextIn(n.entries);
  }

  lemma {:induction false} UncleanHasTextIn(e: Entries)
    requires !CleanEntries(e)
    ensures HasTextIn(e)
    decreases e, 0
  {
    if !CleanEntries(e.rest) {
      UncleanHasTextIn(e.rest);
    } else if !HasText(e.value) {
      UncleanHasText(e.value);
    }
  }

  /**
    For every tree: under a name, each key is listed exactly once when it resolves to a string and not at all
    otherwise, if and only if every string is reached through keys without dots.
   */
  lemma ListedOnceIffClean(n: Node, prefix: string)
    requires Distinct(n) && prefix != ""
    ensures Clean(n) <==>
            forall key: string ::
              multiset(Flatten(n, prefix))[prefix + "." + key] == if Resolve(n, key).Text? then 1 else 0
  {
    hide Flatten, Resolve;
    if Clean(n) {
      forall key: string
        ensures multiset(Flatten(n, prefix))[prefix + "." + key] == if Resolve(n, key).Text? then 1 else 0
      {
        ListedPerLeaf(n, prefix, key);
        if n.Branch? {
          CleanLeaves(n.entries, key);
        } else {
          NothingResolves(n, key);
        }
      }
    } else {
      var key := UncleanDiffers(n.entries);
      ListedPerLeaf(n, prefix, key);
    }
  }

  lemma NothingResolves(n: Node, key: string)
    requires !n.Branch?
    ensures Resolve(n, key).Text? ==> n.Text? && Split(key) == []
  {
  }

  /** For one, a tree whose only key has a dot lists a key that does not resolve. */
  lemma DottedKeyListedUnresolved()
    ensures var n := Branch(Entry("a.b", Text("x"), Done));
            Flatten(n, "m") == ["m.a.b"] && !Resolve(n, "a.b").Text?
  {
    var e := Entry("a.b", Text("x"), Done);
    DotAt("a", ".b");
    assert "a" + ".b" == "a.b";
    ResolveSteps(e, "a.b");
    assert Head("a.b") == "a";
    assert Lookup(e, "a") == Other;
    assert Lead("m") + "a.b" == "m.a.b";
  }

  // ---------- The check of several locales ----------

  /** Every key is reached by as many strings in one tree as in the other. */
  ghost predicate SameLeaves(a: Node, b: Node) {
    forall key: string :: Leaves(a, key) == Leaves(b, key)
  }

  ghost predicate HasLeaf(n: Node) {
    exists key: string :: Leaves(n, key) > 0
  }

  /** The key under a name whose listing the path is. */
  lemma ListedUnder(n: Node, prefix: string, path: string) returns (key: string)
    requires prefix != "" && path in Flatten(n, prefix)
    ensures path == prefix + "." + key && Leaves(n, key) > 0
  {
    FlattenBehind(n, prefix, path);
    key := path[|prefix| + 1..];
    ListedPerLeaf(n, prefix, key);
  }

  /** For every two trees the sorted lists are equal if and only if every key is reached equally often. */
  lemma ListsAgreeIff(a: Node, b: Node, prefix: string)
    requires prefix != ""
    ensures Sort(Flatten(a, prefix)) == Sort(Flatten(b, prefix)) <==> SameLeaves(a, b)
  {
    hide Flatten, Leaves, Sort;
    var x, y := Flatten(a, prefix), Flatten(b, prefix);
    SortAgreesIff(x, y);
    if multiset(x) == multiset(y) {
      forall key: string ensures Leaves(a, key) == Leaves(b, key) {
        ListedPerLeaf(a, prefix, key);
        ListedPerLeaf(b, prefix, key);
      }
    }
    if SameLeaves(a, b) {
      forall path ensures multiset(x)[path] == multiset(y)[path] {
        SameCount(a, b, prefix, path);
      }
    }
  }

  lemma SameCount(a: Node, b: Node, prefix: string, path: string)
    requires prefix != "" && SameLeaves(a, b)
    ensures multiset(Flatten(a, prefix))[path] == multiset(Flatten(b, prefix))[path]
  {
    hide Flatten, Leaves;
    if path in Flatten(a, prefix) {
      var key := ListedUnder(a, prefix, path);
      ListedPerLeaf(a, prefix, key);
      ListedPerLeaf(b, prefix, key);
    } else if path in Flatten(b, prefix) {
      var key := ListedUnder(b, prefix, path);
      ListedPerLeaf(a, prefix, key);
      ListedPerLeaf(b, prefix, key);
    }
  }

  lemma ListNonemptyIff(n: Node, prefix: string)
    requires prefix != ""
    ensures Sort(Flatten(n, prefix)) != [] <==> HasLeaf(n)
  {
    hide Flatten, Leaves, Sort;
    var x := Flatten(n, prefix);
    SortKeeps(x);
    assert |multiset(Sort(x))| == |multiset(x)|;
    if x != [] {
      var key := ListedUnder(n, prefix, x[0]);
    }
    if HasLeaf(n) {
      var key: string :| Leaves(n, key) > 0;
      ListedPerLeaf(n, prefix, key);
      assert prefix + "." + key in multiset(x);
    }
  }

  ghost predicate InParity(reference: Node, others: seq<Node>, namespace: string) {
    && HasLeaf(Resolve(reference, namespace))
    && forall k :: 0 <= k < |others| ==> SameLeaves(Resolve(others[k], namespace), Resolve(reference, namespace))
  }

  /**
    Passes exactly when every namespace has a string in the reference, and each key below it is reached by as many
    strings in every locale as in the reference.
   */
  method AssertNamespaceParity(reference: Node, others: seq<Node>, namespaces: seq<string>) returns (passes: bool)
    requires "" !in namespaces
    ensures passes <==> forall j :: 0 <= j < |namespaces| ==> InParity(reference, others, namespaces[j])
  {
    hide Flatten, Resolve, Sort, SameLeaves, HasLeaf;
    for j := 0 to |namespaces|
      invariant forall i :: 0 <= i < j ==> InParity(reference, others, namespaces[i])
    {
      var namespace := namespaces[j];
      ListNonemptyIff(Resolve(reference, namespace), namespace);
      var expected := Sort(Flatten(Resolve(reference, namespace), namespace));
      if expected == [] {
        return false;
      }
      for k := 0 to |others|
        invariant forall i :: 0 <= i < k ==>
                    SameLeaves(Resolve(others[i], namespace), Resolve(reference, namespace))
      {
        ListsAgreeIff(Resolve(others[k], namespace), Resolve(reference, namespace), namespace);
        if Sort(Flatten(Resolve(others[k], namespace), namespace)) != expected {
          return false;
        }
      }
    }
    return true;
  }

  /** In a tree with nonempty keys without dots a key below a namespace is reached once if it resolves, or not. */
  lemma KeyedLeaves(root: Node, namespace: string, key: string)
    requires Keyed(root) && namespace != ""
    ensures Leaves(Resolve(root, namespace), key) == if IsLeaf(root, namespace, key) then 1 else 0
  {
    hide Flatten, Split, Walk, Leaves;
    KeyedWalk(root, Split(namespace));
    ListedPerLeaf(Resolve(root, namespace), namespace, key);
    ListedIffLeaf(root, namespace, key);
    ListedOnce(Resolve(root, namespace), namespace, namespace + "." + key);
  }

  /** So for such trees the check passes a namespace when the same keys below it resolve to strings everywhere. */
  lemma KeyedParityIff(reference: Node, others: seq<Node>, namespace: string)
    requires namespace != "" && Keyed(reference) && forall k :: 0 <= k < |others| ==> Keyed(others[k])
    ensures InParity(reference, others, namespace) <==>
            && (exists key: string :: IsLeaf(reference, namespace, key))
            && forall k, key: string :: 0 <= k < |others| ==>
                 (IsLeaf(others[k], namespace, key) <==> IsLeaf(reference, namespace, key))
  {
    hide Resolve, Leaves, IsLeaf;
    forall key: string
      ensures Leaves(Resolve(reference, namespace), key) == if IsLeaf(reference, namespace, key) then 1 else 0
    {
      KeyedLeaves(reference, namespace, key);
    }
    forall k, key: string | 0 <= k < |others|
      ensures Leaves(Resolve(others[k], namespace), key) == if IsLeaf(others[k], namespace, key) then 1 else 0
    {
      KeyedLeaves(others[k], namespace, key);
    }
  }
}
