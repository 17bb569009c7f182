/**
  The service worker's caching of static files (client/public/sw.js): network first, the caches as fallback, with
  opening a cache and putting into it as separate pending steps that interleave with everything else.
 */
module ServiceWorker {

  import opened TextSearch

  // ---------- Which requests the worker handles ----------

  datatype Url = Url(origin: string, pathname: string, search: string)

  datatype Request = Request(verb: string, navigate: bool, url: Url)

  datatype Response = Response(status: int, body: string)

  const CACHEABLE_EXTENSIONS: seq<string> :=
    [".js", ".css", ".woff", ".woff2", ".ttf", ".svg", ".png", ".jpg", ".jpeg", ".gif", ".ico"]

  const NETWORK_ONLY_PATTERNS: seq<string> := ["/api/", "/auth/", "/oauth/", "/__vite_ping", "/sw.js"]

  /** The text `p` occurs in `s` at position `i`. */
  predicate OccursAt(s: string, p: string, i: int) {
    0 <= i <= |s| - |p| && s[i..i + |p|] == p
  }

  ghost predicate Includes(s: string, p: string) {
    exists i :: OccursAt(s, p, i)
  }

  predicate EndsWith(s: string, p: string) {
    OccursAt(s, p, |s| - |p|)
  }

  /** A path of a parsed address is ASCII, so this is its whole lower-casing. */
  function Lower(s: string): string {
    seq(|s|, i requires 0 <= i < |s| => if 'A' <= s[i] <= 'Z' then (s[i] as int + 32) as char else s[i])
  }

  ghost predicate Cacheable(origin: string, url: Url) {
    && (forall p :: p in NETWORK_ONLY_PATTERNS ==> !Includes(url.pathname, p))
    && url.origin == origin
    && exists e :: e in CACHEABLE_EXTENSIONS && EndsWith(Lower(url.pathname), e)
  }

  method Contains(s: string, p: string) returns (found: bool)
    ensures found <==> Includes(s, p)
  {
    var i := 0;
    while i + |p| <= |s|
      invariant 0 <= i
      invariant forall j :: 0 <= j < i ==> !OccursAt(s, p, j)
    {
      if OccursAt(s, p, i) {
        return true;
      }
      i := i + 1;
    }
    return false;
  }

  method ShouldCache(origin: string, url: Url) returns (ok: bool)
    ensures ok <==> Cacheable(origin, url)
  {
    for i := 0 to |NETWORK_ONLY_PATTERNS|
      invariant forall j :: 0 <= j < i ==> !Includes(url.pathname, NETWORK_ONLY_PATTERNS[j])
    {
      var found := Contains(url.pathname, NETWORK_ONLY_PATTERNS[i]);
      if found {
        assert NETWORK_ONLY_PATTERNS[i] in NETWORK_ONLY_PATTERNS;
        return false;
      }
    }
    if url.origin != origin {
      return false;
    }
    var pathname := Lower(url.pathname);
    for i := 0 to |CACHEABLE_EXTENSIONS|
      invariant forall j :: 0 <= j < i ==> !EndsWith(pathname, CACHEABLE_EXTENSIONS[j])
    {
      if EndsWith(pathname, CACHEABLE_EXTENSIONS[i]) {
        assert CACHEABLE_EXTENSIONS[i] in CACHEABLE_EXTENSIONS;
        return true;
      }
    }
    return false;
  }

  ghost predicate Handles(origin: string, request: Request) {
    request.verb == "GET" && !request.navigate && Cacheable(origin, request.url)
  }

  // ---------- Which requests these are, letter by letter ----------

  /** The letter or its capital, for a small letter; any other character itself. */
  predicate SameLetter(c: char, small: char) {
    c == small || ('a' <= small <= 'z' && 'A' <= c <= 'Z' && c as int - 'A' as int == small as int - 'a' as int)
  }

  /** The path ends in the extension, whatever the case of its letters. */
  predicate EndsInAnyCase(path: string, extension: string) {
    && |extension| <= |path|
    && forall k :: 0 <= k < |extension| ==> SameLetter(path[|path| - |extension| + k], extension[k])
  }

  predicate NoCapitals(s: string) {
    forall k :: 0 <= k < |s| ==> !('A' <= s[k] <= 'Z')
  }

  lemma EndsInAnyCaseIff(path: string, extension: string)
    requires NoCapitals(extension)
    ensures EndsWith(Lower(path), extension) <==> EndsInAnyCase(path, extension)
  {
    if |extension| <= |path| {
      var tail := Lower(path)[|path| - |extension|..|path|];
      forall k | 0 <= k < |extension|
        ensures tail[k] == extension[k] <==> SameLetter(path[|path| - |extension| + k], extension[k])
      {
      }
      if EndsInAnyCase(path, extension) {
        assert tail == extension;
      }
    }
  }

  ghost predicate Occurs(s: string, p: string) {
    exists a, b :: s == a + p + b
  }

  lemma OccursIff(s: string, p: string)
    ensures Includes(s, p) <==> Occurs(s, p)
  {
    if i :| OccursAt(s, p, i) {
      assert s == s[..i] + p + s[i + |p|..];
    }
    if a, b :| s == a + p + b {
      assert OccursAt(s, p, |a|);
    }
  }

  predicate IsExtension(e: string) {
    e == ".js" || e == ".css" || e == ".woff" || e == ".woff2" || e == ".ttf" || e == ".svg" || e == ".png" ||
    e == ".jpg" || e == ".jpeg" || e == ".gif" || e == ".ico"
  }

  lemma ExtensionListed(e: string)
    ensures e in CACHEABLE_EXTENSIONS <==> IsExtension(e)
  {
    var l := CACHEABLE_EXTENSIONS;
    assert l[0] == ".js" && l[1] == ".css" && l[2] == ".woff" && l[3] == ".woff2" && l[4] == ".ttf" && l[5] == ".svg";
    assert l[6] == ".png" && l[7] == ".jpg" && l[8] == ".jpeg" && l[9] == ".gif" && l[10] == ".ico" && |l| == 11;
  }

  lemma FromListed(path: string)
    ensures (exists e :: e in CACHEABLE_EXTENSIONS && EndsWith(Lower(path), e)) ==> EndsInExtension(path)
  {
    if e :| e in CACHEABLE_EXTENSIONS && EndsWith(Lower(path), e) {
      ExtensionListed(e);
      assert NoCapitals(e);
      EndsInAnyCaseIff(path, e);
      hide EndsInAnyCase, EndsWith, Lower;
    }
  }

  lemma ToListed(path: string, e: string)
    requires e in CACHEABLE_EXTENSIONS && NoCapitals(e) && EndsInAnyCase(path, e)
    ensures exists listed :: listed in CACHEABLE_EXTENSIONS && EndsWith(Lower(path), listed)
  {
    EndsInAnyCaseIff(path, e);
  }

  predicate EndsInExtension(path: string) {
    EndsInAnyCase(path, ".js") || EndsInAnyCase(path, ".css") || EndsInAnyCase(path, ".woff") ||
    EndsInAnyCase(path, ".woff2") || EndsInAnyCase(path, ".ttf") || EndsInAnyCase(path, ".svg") ||
    EndsInAnyCase(path, ".png") || EndsInAnyCase(path, ".jpg") || EndsInAnyCase(path, ".jpeg") ||
    EndsInAnyCase(path, ".gif") || EndsInAnyCase(path, ".ico")
  }

  lemma ExtensionsIff(path: string)
    ensures (exists e :: e in CACHEABLE_EXTENSIONS && EndsWith(Lower(path), e)) <==> EndsInExtension(path)
  {
    FromListed(path);
    if EndsInExtension(path) {
      var e := FirstEnding(path);
      ExtensionListed(e);
      ToListed(path, e);
    }
  }

  /** The extension of these that the path ends in. */
  function FirstEnding(path: string): (e: string)
    requires EndsInExtension(path)
    ensures IsExtension(e) && NoCapitals(e) && EndsInAnyCase(path, e)
  {
    if EndsInAnyCase(path, ".js") then ".js" else if EndsInAnyCase(path, ".css") then ".css"
    else if EndsInAnyCase(path, ".woff") then ".woff" else if EndsInAnyCase(path, ".woff2") then ".woff2"
    else if EndsInAnyCase(path, ".ttf") then ".ttf" else if EndsInAnyCase(path, ".svg") then ".svg"
    else if EndsInAnyCase(path, ".png") then ".png" else if EndsInAnyCase(path, ".jpg") then ".jpg"
    else if EndsInAnyCase(path, ".jpeg") then ".jpeg" else if EndsInAnyCase(path, ".gif") then ".gif"
    else ".ico"
  }

  lemma PatternsIff(path: string)
    ensures (forall p :: p in NETWORK_ONLY_PATTERNS ==> !Includes(path, p)) <==>
            (!Occurs(path, "/api/") && !Occurs(path, "/auth/") && !Occurs(path, "/oauth/") &&
             !Occurs(path, "/__vite_ping") && !Occurs(path, "/sw.js"))
  {
    var l := NETWORK_ONLY_PATTERNS;
    forall p: string ensures Includes(path, p) <==> Occurs(path, p) {
      OccursIff(path, p);
    }
    hide Includes, Occurs;
    assert l[0] == "/api/" && l[1] == "/auth/" && l[2] == "/oauth/" && l[3] == "/__vite_ping" && l[4] == "/sw.js";
    assert |l| == 5;
  }

  /**
    A request is handled exactly when it is a GET of the worker's origin that is no navigation, its path does not
    contain one of five texts, and it ends, in any case of letters, in one of eleven extensions.
   */
  lemma HandlesIff(origin: string, request: Request)
    ensures Handles(origin, request) <==>
            && request.verb == "GET" && !request.navigate && request.url.origin == origin
            && !Occurs(request.url.pathname, "/api/") && !Occurs(request.url.pathname, "/auth/")
            && !Occurs(request.url.pathname, "/oauth/") && !Occurs(request.url.pathname, "/__vite_ping")
            && !Occurs(request.url.pathname, "/sw.js")
            && EndsInExtension(request.url.pathname)
  {
    ExtensionsIff(request.url.pathname);
    PatternsIff(request.url.pathname);
    hide Includes, Occurs, EndsWith, Lower, EndsInExtension;
  }

  // ---------- Caches and pending work ----------

  datatype Cache = Cache(name: string, id: nat)

  /** A response waiting for its worker's cache to be opened. */
  datatype Opening = Opening(name: string, url: Url, response: Response)

  /** A response waiting to be put into the cache object of that identifier. */
  datatype Putting = Putting(id: nat, url: Url, response: Response)

  type Store = map<Url, Response>

  /**
    `directory` lists the existing caches in the order of their creation; a deleted cache leaves it, but its
    object stays in `stores` for those who still hold it.
   */
  datatype State = State(
    directory: seq<Cache>, stores: map<nat, Store>, nextId: nat, opens: seq<Opening>, puts: seq<Putting>)

  const EMPTY := State([], map[], 0, [], [])

  datatype Event =
    | Answered(name: string, request: Request, response: Response)
    | Failed(request: Request)
    | Opened(k: nat)
    | Put(k: nat)
    | Deleted(name: string)

  /** The position of the cache of that name, or the length. */
  function PositionOf(directory: seq<Cache>, name: string): (j: nat)
    ensures j <= |directory| && (j < |directory| ==> directory[j].name == name)
  {
    if directory == [] || directory[0].name == name then 0 else 1 + PositionOf(directory[1..], name)
  }

  function Without(directory: seq<Cache>, name: string): seq<Cache> {
    if directory == [] then []
    else (if directory[0].name == name then [] else [directory[0]]) + Without(directory[1..], name)
  }

  /** Opening a cache gives the existing one of that name or a new empty one. */
  function Open(st: State, name: string): (State, nat) {
    var j := PositionOf(st.directory, name);
    if j < |st.directory| then (st, st.directory[j].id)
    else
      (State(st.directory + [Cache(name, st.nextId)], st.stores[st.nextId := map[]], st.nextId + 1, st.opens, st.puts),
       st.nextId)
  }

  ghost function Step(origin: string, st: State, e: Event): State {
    match e
    case Answered(name, request, response) =>
      if Handles(origin, request) && response.status == 200 then
        st.(opens := st.opens + [Opening(name, request.url, response)])
      else st
    case Failed(_) => st
    case Opened(k) =>
      if k >= |st.opens| then st
      else
        var (done, id) := Open(st, st.opens[k].name);
        done.(opens := RemoveAt(st.opens, k),
                puts := st.puts + [Putting(id, st.opens[k].url, st.opens[k].response)])
    case Put(k) =>
      if k >= |st.puts| then st
      else
        var p := st.puts[k];
        st.(puts := RemoveAt(st.puts, k),
            stores := if p.id in st.stores then st.stores[p.id := st.stores[p.id][p.url := p.response]] else st.stores)
    case Deleted(name) => st.(directory := Without(st.directory, name))
  }

  ghost function Run(origin: string, st: State, events: seq<Event>): State
    decreases |events|
  {
    if events == [] then st else Run(origin, Step(origin, st, events[0]), events[1..])
  }

  /** The first existing cache that has the address answers for it. */
  function Match(directory: seq<Cache>, stores: map<nat, Store>, url: Url): Option<Response> {
    if directory == [] then None
    else if directory[0].id in stores && url in stores[directory[0].id] then Some(stores[directory[0].id][url])
    else Match(directory[1..], stores, url)
  }

  // ---------- The worker's handlers ----------

  class Browser {
    const origin: string
    var directory: seq<Cache>
    var stores: map<nat, Store>
    var nextId: nat
    var opens: seq<Opening>
    var puts: seq<Putting>

    constructor (origin: string)
      ensures this.origin == origin && Now() == EMPTY
    {
      this.origin := origin;
      directory, stores, nextId, opens, puts := [], map[], 0, [], [];
    }

    ghost function Now(): State
      reads this
    {
      State(directory, stores, nextId, opens, puts)
    }

    method Handled(request: Request) returns (ok: bool)
      ensures ok <==> Handles(origin, request)
    {
      if request.verb != "GET" || request.navigate {
        return false;
      }
      ok := ShouldCache(origin, request.url);
    }

    /** The network answered a request: the answer is passed on, and a good one is kept for caching. */
    method FetchAnswered(name: string, request: Request, response: Response)
      modifies this`opens
      ensures Now() == Step(origin, old(Now()), Answered(name, request, response))
    {
      var ok := Handled(request);
      if ok && response.status == 200 {
        opens := opens + [Opening(name, request.url, response)];
      }
    }

    /** The network failed a request: a handled one is served from the caches, if one of them has it. */
    method FetchFailed(request: Request) returns (served: Option<Response>)
      ensures served == if Handles(origin, request) then Match(directory, stores, request.url) else None
    {
      var ok := Handled(request);
      if !ok {
        return None;
      }
      for j := 0 to |directory|
        invariant Match(directory, stores, request.url) == Match(directory[j..], stores, request.url)
      {
        if directory[j].id in stores && request.url in stores[directory[j].id] {
          return Some(stores[directory[j].id][request.url]);
        }
        assert directory[j..][1..] == directory[j + 1..];
      }
      return None;
    }

    /** A pending opening takes place and leaves a pending put into the cache object it got. */
    method OpenCache(k: nat)
      requires k < |opens|
      modifies this
      ensures Now() == Step(origin, old(Now()), Opened(k))
    {
      var o := opens[k];
      var j := PositionOf(directory, o.name);
      var id: nat;
      if j < |directory| {
        id := directory[j].id;
      } else {
        id := nextId;
        directory, stores, nextId := directory + [Cache(o.name, id)], stores[id := map[]], nextId + 1;
      }
      opens, puts := RemoveAt(opens, k), puts + [Putting(id, o.url, o.response)];
    }

    method PutResponse(k: nat)
      requires k < |puts|
      modifies this`puts, this`stores
      ensures Now() == Step(origin, old(Now()), Put(k))
    {
      var p := puts[k];
      puts := RemoveAt(puts, k);
      if p.id in stores {
        stores := stores[p.id := stores[p.id][p.url := p.response]];
      }
    }

    /** The message to clear deletes the worker's cache; so does an activation with every other one. */
    method DeleteCache(name: string)
      modifies this`directory
      ensures Now() == Step(origin, old(Now()), Deleted(name))
    {
      directory := Without(directory, name);
    }

    /** An activation that nothing interrupts leaves the worker's cache as the only one, with its contents. */
    method Activate(current: string)
      modifies this`directory
      ensures directory == Only(old(directory), current)
    {
      var names := directory;
      OnlyFrom(names, current);
      for j := 0 to |names|
        invariant directory == Kept(names, current, j)
      {
        KeptStep(names, current, j);
        if names[j].name != current {
          DeleteCache(names[j].name);
        }
      }
      OnlyFrom(names, current);
    }
  }

  function Only(directory: seq<Cache>, name: string): seq<Cache> {
    if directory == [] then []
    else (if directory[0].name == name then [directory[0]] else []) + Only(directory[1..], name)
  }

  /** The caches of `names` that are left once those before position `j` have been dealt with. */
  function Kept(names: seq<Cache>, current: string, j: nat): seq<Cache>
    requires j <= |names|
  {
    if j == 0 then names
    else if names[j - 1].name == current then Kept(names, current, j - 1)
    else Without(Kept(names, current, j - 1), names[j - 1].name)
  }

  lemma KeptStep(names: seq<Cache>, current: string, j: nat)
    requires j < |names|
    ensures Kept(names, current, j + 1) ==
            if names[j].name == current then Kept(names, current, j)
            else Without(Kept(names, current, j), names[j].name)
  {
  }

  lemma {:induction false} WithoutKeeps(d: seq<Cache>, name: string, current: string)
    ensures forall c :: c in Without(d, name) <==> c in d && c.name != name
    ensures name != current ==> Only(Without(d, name), current) == Only(d, current)
  {
    if d != [] {
      WithoutKeeps(d[1..], name, current);
      var rest := Without(d[1..], name);
      if d[0].name != name {
        assert Without(d, name)[0] == d[0] && Without(d, name)[1..] == rest;
      } else {
        assert Without(d, name) == rest;
      }
    }
  }

  lemma {:induction false} KeptOnly(names: seq<Cache>, current: string, j: nat)
    requires j <= |names|
    ensures Only(Kept(names, current, j), current) == Only(names, current)
  {
    if j > 0 {
      KeptOnly(names, current, j - 1);
      WithoutKeeps(Kept(names, current, j - 1), names[j - 1].name, current);
    }
  }

  /** A cache that is left is one of the listed, and not one of another name that has been dealt with. */
  lemma {:induction false} KeptHas(names: seq<Cache>, current: string, j: nat, c: Cache)
    requires j <= |names| && c in Kept(names, current, j)
    ensures c in names && forall i :: 0 <= i < j && c.name == names[i].name ==> c.name == current
  {
    hide Without;
    if j > 0 {
      WithoutKeeps(Kept(names, current, j - 1), names[j - 1].name, current);
      KeptHas(names, current, j - 1, c);
    }
  }

  lemma {:induction false} OnlyWhole(d: seq<Cache>, name: string)
    requires forall c :: c in d ==> c.name == name
    ensures Only(d, name) == d
  {
    if d != [] {
      OnlyWhole(d[1..], name);
    }
  }

  lemma OnlyFrom(names: seq<Cache>, current: string)
    ensures Kept(names, current, |names|) == Only(names, current)
  {
    var d := Kept(names, current, |names|);
    KeptOnly(names, current, |names|);
    forall c | c in d ensures c.name == current {
      KeptHas(names, current, |names|, c);
      var i :| 0 <= i < |names| && names[i] == c;
    }
    OnlyWhole(d, current);
  }

  // ---------- What is served was fetched ----------

  /** The network has answered a handled request for the address with that response, and with status 200. */
  ghost predicate WasAnswered(origin: string, events: seq<Event>, url: Url, response: Response) {
    response.status == 200 && exists e :: e in events && AnswerOf(origin, e, url, response)
  }

  ghost predicate AnswerOf(origin: string, e: Event, url: Url, response: Response) {
    e.Answered? && Handles(origin, e.request) && e.request.url == url && e.response == response
  }

  ghost predicate Genuine(origin: string, events: seq<Event>, st: State) {
    && (forall o :: o in st.opens ==> WasAnswered(origin, events, o.url, o.response))
    && (forall p :: p in st.puts ==> WasAnswered(origin, events, p.url, p.response))
    && (forall id, url :: id in st.stores && url in st.stores[id] ==>
          WasAnswered(origin, events, url, st.stores[id][url]))
  }

  lemma GenuineStep(origin: string, events: seq<Event>, st: State, e: Event)
    requires Genuine(origin, events, st)
    ensures Genuine(origin, events + [e], Step(origin, st, e))
  {
    hide Handles, PositionOf, Without, WasAnswered;
    var after, more := Step(origin, st, e), events + [e];
    forall url, response | WasAnswered(origin, events, url, response)
      ensures WasAnswered(origin, more, url, response)
    {
      StillAnswered(origin, events, e, url, response);
    }
    match e
    case Answered(name, request, response) =>
      if Handles(origin, request) && response.status == 200 {
        NowAnswered(origin, events, e);
      }
    case Failed(_) =>
    case Opened(k) =>
      if k < |st.opens| {
        assert st.opens[k] in st.opens;
        forall o | o in after.opens ensures o in st.opens {
        }
      }
    case Put(k) =>
      if k < |st.puts| {
        assert st.puts[k] in st.puts;
        forall p | p in after.puts ensures p in st.puts {
        }
      }
    case Deleted(_) =>
  }

  lemma StillAnswered(origin: string, events: seq<Event>, e: Event, url: Url, response: Response)
    requires WasAnswered(origin, events, url, response)
    ensures WasAnswered(origin, events + [e], url, response)
  {
    hide AnswerOf;
    var a :| a in events && AnswerOf(origin, a, url, response);
    assert a in events + [e];
  }

  lemma NowAnswered(origin: string, events: seq<Event>, e: Event)
    requires e.Answered? && Handles(origin, e.request) && e.response.status == 200
    ensures WasAnswered(origin, events + [e], e.request.url, e.response)
  {
    hide Handles;
    assert (events + [e])[|events|] == e;
    assert AnswerOf(origin, e, e.request.url, e.response);
  }

  lemma {:induction false} GenuineRun(origin: string, past: seq<Event>, st: State, events: seq<Event>)
    requires Genuine(origin, past, st)
    ensures Genuine(origin, past + events, Run(origin, st, events))
    decreases |events|
  {
    hide Step, Genuine;
    if events == [] {
      assert past + events == past;
    } else {
      GenuineStep(origin, past, st, events[0]);
      GenuineRun(origin, past + [events[0]], Step(origin, st, events[0]), events[1..]);
      assert past + [events[0]] + events[1..] == past + events;
    }
  }

  lemma {:induction false} MatchFound(directory: seq<Cache>, stores: map<nat, Store>, url: Url)
    ensures var m := Match(directory, stores, url);
            m.Some? ==> exists id :: id in stores && url in stores[id] && stores[id][url] == m.value
  {
    if directory != [] {
      MatchFound(directory[1..], stores, url);
    }
  }

  /** The cache at that place of the directory has the address, with that response. */
  predicate HasAt(directory: seq<Cache>, stores: map<nat, Store>, j: int, url: Url, response: Response) {
    && 0 <= j < |directory| && directory[j].id in stores
    && url in stores[directory[j].id] && stores[directory[j].id][url] == response
  }

  ghost predicate HasFirst(directory: seq<Cache>, stores: map<nat, Store>, j: int, url: Url, response: Response) {
    && HasAt(directory, stores, j, url, response)
    && forall i, other :: 0 <= i < j ==> !HasAt(directory, stores, i, url, other)
  }

  /** A response is served exactly when some existing cache has the address, and the oldest such cache decides. */
  lemma {:induction false} ServedByOldestIff(
    directory: seq<Cache>, stores: map<nat, Store>, url: Url, response: Response)
    ensures Match(directory, stores, url) == Some(response) <==>
            exists j :: HasFirst(directory, stores, j, url, response)
    ensures Match(directory, stores, url).Some? <==> exists j, r :: HasAt(directory, stores, j, url, r)
  {
    if directory != [] {
      var rest := directory[1..];
      ServedByOldestIff(rest, stores, url, response);
      forall j, r ensures HasAt(directory, stores, j + 1, url, r) && j + 1 > 0 <==> HasAt(rest, stores, j, url, r) {
      }
      if directory[0].id in stores && url in stores[directory[0].id] {
        var r := stores[directory[0].id][url];
        assert HasAt(directory, stores, 0, url, r) && HasFirst(directory, stores, 0, url, r);
      } else {
        assert forall r :: !HasAt(directory, stores, 0, url, r);
        if j :| HasFirst(rest, stores, j, url, response) {
          assert HasAt(directory, stores, j + 1, url, response);
          forall i, other | 0 <= i < j + 1 ensures !HasAt(directory, stores, i, url, other) {
            assert i > 0 ==> !HasAt(rest, stores, i - 1, url, other);
          }
          assert HasFirst(directory, stores, j + 1, url, response);
        }
        if j :| HasFirst(directory, stores, j, url, response) {
          assert HasAt(rest, stores, j - 1, url, response);
          forall i, other | 0 <= i < j - 1 ensures !HasAt(rest, stores, i, url, other) {
            assert !HasAt(directory, stores, i + 1, url, other);
          }
          assert HasFirst(rest, stores, j - 1, url, response);
        }
        if j, r :| HasAt(rest, stores, j, url, r) {
          assert HasAt(directory, stores, j + 1, url, r);
        }
        if j, r :| HasAt(directory, stores, j, url, r) {
          assert HasAt(rest, stores, j - 1, url, r);
        }
      }
    }
  }

  /**
    In every run, of any workers and in any order of the pending steps, what the caches serve for an address is an
    earlier answer of status 200 to a handled request for that address.
   */
  lemma ServedWasAnswered(origin: string, events: seq<Event>, url: Url)
    ensures var st := Run(origin, EMPTY, events);
            var served := Match(st.directory, st.stores, url);
            served.Some? ==> Cacheable(origin, url) && WasAnswered(origin, events, url, served.value)
  {
    hide Run, Match, Cacheable;
    var st := Run(origin, EMPTY, events);
    GenuineRun(origin, [], EMPTY, events);
    assert [] + events == events;
    MatchFound(st.directory, st.stores, url);
    var served := Match(st.directory, st.stores, url);
    if served.Some? {
      var id :| id in st.stores && url in st.stores[id] && st.stores[id][url] == served.value;
      var e :| e in events && AnswerOf(origin, e, url, served.value);
    }
  }

  // ---------- Which caches exist ----------

  predicate Exists(directory: seq<Cache>, name: string) {
    PositionOf(directory, name) < |directory|
  }

  lemma {:induction false} ExistsIff(directory: seq<Cache>, name: string)
    ensures Exists(directory, name) <==> exists c :: c in directory && c.name == name
  {
    if directory != [] && directory[0].name != name {
      ExistsIff(directory[1..], name);
    }
  }

  /** Some step of the run opens the cache of that name. */
  ghost predicate Opens(origin: string, st: State, events: seq<Event>, name: string)
    decreases |events|
  {
    events != [] &&
    ((events[0].Opened? && events[0].k < |st.opens| && st.opens[events[0].k].name == name) ||
     Opens(origin, Step(origin, st, events[0]), events[1..], name))
  }

  lemma StepKeepsNames(origin: string, st: State, e: Event, name: string)
    requires Exists(Step(origin, st, e).directory, name)
    ensures (e.Opened? && e.k < |st.opens| && st.opens[e.k].name == name) ||
            (Exists(st.directory, name) && e != Deleted(name))
  {
    hide Handles, PositionOf;
    ExistsIff(Step(origin, st, e).directory, name);
    ExistsIff(st.directory, name);
    if e.Deleted? {
      WithoutKeeps(st.directory, e.name, name);
    }
  }

  /** A cache that exists after a run was opened in it, or existed before and was not deleted. */
  lemma {:induction false} NamesKept(origin: string, st: State, events: seq<Event>, name: string)
    requires Exists(Run(origin, st, events).directory, name)
    ensures Opens(origin, st, events, name) || (Exists(st.directory, name) && Deleted(name) !in events)
    decreases |events|
  {
    hide Step, Exists;
    if events != [] {
      var next := Step(origin, st, events[0]);
      NamesKept(origin, next, events[1..], name);
      if !Opens(origin, next, events[1..], name) {
        StepKeepsNames(origin, st, events[0], name);
        assert events == [events[0]] + events[1..];
      }
    }
  }

  /**
    An activation lists the caches of a state and deletes all but its own. Whatever happens in between, once its
    deletions are done every existing cache is its own or one that some worker has opened meanwhile.
   */
  lemma ActivationLeavesCurrent(origin: string, st: State, events: seq<Event>, current: string, name: string)
    requires forall c :: c in st.directory && c.name != current ==> Deleted(c.name) in events
    requires Exists(Run(origin, st, events).directory, name)
    ensures name == current || Opens(origin, st, events, name)
  {
    hide Run, Opens;
    NamesKept(origin, st, events, name);
    ExistsIff(st.directory, name);
  }

  // ---------- Contents as puts in order ----------

  datatype Pair = Pair(url: Url, response: Response)

  /** The contents after putting these responses one after the other. */
  function Fold(pairs: seq<Pair>): Store {
    if pairs == [] then map[]
    else Fold(pairs[..|pairs| - 1])[pairs[|pairs| - 1].url := pairs[|pairs| - 1].response]
  }

  predicate Mentions(pairs: seq<Pair>, url: Url) {
    exists i :: 0 <= i < |pairs| && pairs[i].url == url
  }

  /** The contents have for every mentioned address the last response, and nothing else. */
  lemma {:induction false} FoldIsLatest(pairs: seq<Pair>, url: Url)
    ensures url in Fold(pairs) <==> Mentions(pairs, url)
    ensures url in Fold(pairs) ==>
              exists i :: 0 <= i < |pairs| && pairs[i] == Pair(url, Fold(pairs)[url]) &&
                          forall j :: i < j < |pairs| ==> pairs[j].url != url
  {
    if pairs != [] {
      var front, last := pairs[..|pairs| - 1], pairs[|pairs| - 1];
      FoldIsLatest(front, url);
      assert pairs == front + [last];
      if last.url == url {
        assert pairs[|front|] == Pair(url, Fold(pairs)[url]);
      } else if url in Fold(front) {
        var i :| 0 <= i < |front| && front[i] == Pair(url, Fold(front)[url]) &&
                 forall j :: i < j < |front| ==> front[j].url != url;
        assert pairs[i] == Pair(url, Fold(pairs)[url]);
      }
    }
  }

  /** Earlier responses leave no trace exactly when each of their addresses is answered again. */
  lemma EarlierForgottenIff(earlier: seq<Pair>, later: seq<Pair>)
    ensures Fold(earlier + later) == Fold(later) <==> forall p :: p in earlier ==> Mentions(later, p.url)
  {
    if Fold(earlier + later) == Fold(later) {
      forall p | p in earlier ensures Mentions(later, p.url) {
        var i :| 0 <= i < |earlier| && earlier[i] == p;
        assert (earlier + later)[i] == p;
        FoldIsLatest(earlier + later, p.url);
        FoldIsLatest(later, p.url);
      }
    }
    if forall p :: p in earlier ==> Mentions(later, p.url) {
      FoldAgrees(earlier, later);
    }
  }

  lemma FoldAgrees(earlier: seq<Pair>, later: seq<Pair>)
    requires forall p :: p in earlier ==> Mentions(later, p.url)
    ensures Fold(earlier + later) == Fold(later)
  {
    hide Fold;
    forall url: Url
      ensures url in Fold(earlier + later) <==> url in Fold(later)
      ensures url in Fold(later) ==> Fold(earlier + later)[url] == Fold(later)[url]
    {
      FoldAgreesAt(earlier, later, url);
    }
  }

  lemma FoldAgreesAt(earlier: seq<Pair>, later: seq<Pair>, url: Url)
    requires forall p :: p in earlier ==> Mentions(later, p.url)
    ensures url in Fold(earlier + later) <==> url in Fold(later)
    ensures url in Fold(later) ==> Fold(earlier + later)[url] == Fold(later)[url]
  {
    MentionsConcat(earlier, later, url);
    FoldIsLatest(earlier + later, url);
    FoldIsLatest(later, url);
    if url in Fold(later) {
      FoldConcat(earlier, later, url);
    }
  }

  lemma MentionsConcat(a: seq<Pair>, b: seq<Pair>, url: Url)
    ensures Mentions(a + b, url) <==> Mentions(a, url) || Mentions(b, url)
  {
    if Mentions(b, url) {
      var i :| 0 <= i < |b| && b[i].url == url;
      assert (a + b)[|a| + i].url == url;
    }
    if Mentions(a, url) {
      var i :| 0 <= i < |a| && a[i].url == url;
      assert (a + b)[i].url == url;
    }
  }

  lemma {:induction false} FoldConcat(a: seq<Pair>, b: seq<Pair>, url: Url)
    requires url in Fold(b)
    ensures url in Fold(a + b) && Fold(a + b)[url] == Fold(b)[url]
    decreases |b|
  {
    var front, last := b[..|b| - 1], b[|b| - 1];
    assert (a + b)[..|a + b| - 1] == a + front;
    if last.url != url {
      FoldConcat(a, front, url);
    }
  }

  /** The contents of the cache of that name, empty when there is none. */
  function Contents(st: State, name: string): Store {
    var j := PositionOf(st.directory, name);
    if j < |st.directory| && st.directory[j].id in st.stores then st.stores[st.directory[j].id] else map[]
  }

  ghost predicate WellFormed(st: State) {
    && (forall c :: c in st.directory ==> c.id in st.stores && c.id < st.nextId)
    && (forall id :: id in st.stores ==> id < st.nextId)
    && (forall p :: p in st.puts ==> p.id < st.nextId)
  }

  lemma WellFormedStep(origin: string, st: State, e: Event)
    requires WellFormed(st)
    ensures WellFormed(Step(origin, st, e))
  {
    hide Handles, PositionOf;
    if e.Deleted? {
      WithoutKeeps(st.directory, e.name, e.name);
    }
    if e.Opened? && e.k < |st.opens| {
      var j := PositionOf(st.directory, st.opens[e.k].name);
      if j < |st.directory| {
        assert st.directory[j] in st.directory;
      }
    }
  }

  /** The good answers to handled requests, in order. */
  ghost function GoodAnswers(origin: string, events: seq<Event>): seq<Pair> {
    if events == [] then [] else GoodAnswer(origin, events[0]) + GoodAnswers(origin, events[1..])
  }

  ghost function GoodAnswer(origin: string, e: Event): seq<Pair> {
    if e.Answered? && Handles(origin, e.request) && e.response.status == 200 then [Pair(e.request.url, e.response)]
    else []
  }

  /** An answer is kept for caching, under the worker's cache, exactly when its status is 200 and it is handled. */
  lemma AnswerKeptIff(origin: string, st: State, name: string, request: Request, response: Response)
    ensures var e := Answered(name, request, response);
            var kept := response.status == 200 && Handles(origin, request);
            && Step(origin, st, e) ==
               (if kept then st.(opens := st.opens + [Opening(name, request.url, response)]) else st)
            && GoodAnswer(origin, e) == (if kept then [Pair(request.url, response)] else [])
  {
    hide Handles;
  }

  function Waiting(opens: seq<Opening>): seq<Pair> {
    if opens == [] then [] else [Pair(opens[0].url, opens[0].response)] + Waiting(opens[1..])
  }

  lemma FoldNone()
    ensures Fold([]) == map[]
  {
  }

  lemma FoldWith(pairs: seq<Pair>, p: Pair)
    ensures Fold(pairs + [p]) == Fold(pairs)[p.url := p.response]
  {
    assert (pairs + [p])[..|pairs|] == pairs;
  }

  lemma {:induction false} NewPosition(directory: seq<Cache>, c: Cache)
    requires !Exists(directory, c.name)
    ensures PositionOf(directory + [c], c.name) == |directory|
  {
    if directory != [] {
      assert (directory + [c])[1..] == directory[1..] + [c];
      NewPosition(directory[1..], c);
    }
  }

  // ---------- In any order ----------

  /** A put into the cache that the name now stands for. */
  predicate PutsInto(st: State, e: Event, name: string) {
    && e.Put? && e.k < |st.puts|
    && Exists(st.directory, name) && st.puts[e.k].id == st.directory[PositionOf(st.directory, name)].id
  }

  /** The puts made into the cache of that name, since its last deletion; `made` have been made before. */
  ghost function PutsMade(origin: string, st: State, events: seq<Event>, name: string, made: seq<Pair>): seq<Pair>
    decreases |events|
  {
    if events == [] then made
    else PutsMade(origin, Step(origin, st, events[0]), events[1..], name, MadeBy(st, events[0], name, made))
  }

  function MadeBy(st: State, e: Event, name: string, made: seq<Pair>): seq<Pair> {
    if e == Deleted(name) then []
    else if PutsInto(st, e, name) then made + [Pair(st.puts[e.k].url, st.puts[e.k].response)]
    else made
  }

  /** The cache of that name holds these puts, one after the other; without one there have been none. */
  ghost predicate Holds(st: State, name: string, made: seq<Pair>) {
    if Exists(st.directory, name) then
      var id := st.directory[PositionOf(st.directory, name)].id;
      id in st.stores && st.stores[id] == Fold(made)
    else made == []
  }

  lemma {:induction false} PositionInLonger(directory: seq<Cache>, c: Cache, name: string)
    requires c.name != name || Exists(directory, name)
    ensures Exists(directory + [c], name) <==> Exists(directory, name)
    ensures Exists(directory, name) ==> PositionOf(directory + [c], name) == PositionOf(directory, name)
  {
    if directory == [] {
      assert directory + [c] == [c] && [c][1..] == [];
    } else if directory[0].name != name {
      assert (directory + [c])[1..] == directory[1..] + [c];
      PositionInLonger(directory[1..], c, name);
    }
  }

  lemma {:induction false} PositionWithout(directory: seq<Cache>, removed: string, name: string)
    requires removed != name
    ensures Exists(Without(directory, removed), name) <==> Exists(directory, name)
    ensures Exists(directory, name) ==>
              Without(directory, removed)[PositionOf(Without(directory, removed), name)] ==
              directory[PositionOf(directory, name)]
  {
    if directory != [] && directory[0].name != name {
      PositionWithout(directory[1..], removed, name);
      if directory[0].name != removed {
        assert Without(directory, removed)[1..] == Without(directory[1..], removed);
      } else {
        assert Without(directory, removed) == Without(directory[1..], removed);
      }
    } else if directory != [] {
      assert Without(directory, removed)[0] == directory[0];
    }
  }

  lemma HoldsOpen(origin: string, st: State, k: nat, name: string, made: seq<Pair>)
    requires WellFormed(st) && Holds(st, name, made) && k < |st.opens|
    ensures Holds(Step(origin, st, Opened(k)), name, made)
  {
    hide PositionOf, Fold;
    var other := st.opens[k].name;
    if !Exists(st.directory, other) {
      var c := Cache(other, st.nextId);
      if other == name {
        NewPosition(st.directory, c);
        assert (st.directory + [c])[|st.directory|] == c;
        FoldNone();
      } else {
        PositionInLonger(st.directory, c, name);
        if Exists(st.directory, name) {
          var cache := st.directory[PositionOf(st.directory, name)];
          assert cache in st.directory;
        }
      }
    }
  }

  lemma HoldsStep(origin: string, st: State, e: Event, name: string, made: seq<Pair>)
    requires WellFormed(st) && Holds(st, name, made)
    ensures Holds(Step(origin, st, e), name, MadeBy(st, e, name, made))
  {
    hide Handles, PositionOf, Fold;
    if e.Opened? && e.k < |st.opens| {
      HoldsOpen(origin, st, e.k, name, made);
    } else if e.Put? && e.k < |st.puts| {
      FoldWith(made, Pair(st.puts[e.k].url, st.puts[e.k].response));
    } else if e == Deleted(name) {
      WithoutKeeps(st.directory, name, name);
      ExistsIff(Without(st.directory, name), name);
    } else if e.Deleted? {
      PositionWithout(st.directory, e.name, name);
    }
  }

  lemma {:induction false} HoldsRun(origin: string, st: State, events: seq<Event>, name: string, made: seq<Pair>)
    requires WellFormed(st) && Holds(st, name, made)
    ensures Holds(Run(origin, st, events), name, PutsMade(origin, st, events, name, made))
    decreases |events|
  {
    hide Step, WellFormed, Holds, MadeBy;
    if events != [] {
      WellFormedStep(origin, st, events[0]);
      HoldsStep(origin, st, events[0], name, made);
      HoldsRun(origin, Step(origin, st, events[0]), events[1..], name, MadeBy(st, events[0], name, made));
    }
  }

  /**
    At every moment of every run, of any workers, with openings and puts in any order and caches deleted at any
    time, a cache that did not exist at the start holds exactly the puts made into it since its last deletion.
   */
  lemma CacheHoldsPutsMade(origin: string, st: State, events: seq<Event>, name: string)
    requires WellFormed(st) && !Exists(st.directory, name)
    ensures Contents(Run(origin, st, events), name) == Fold(PutsMade(origin, st, events, name, []))
  {
    hide Run, PutsMade, PositionOf;
    HoldsRun(origin, st, events, name, []);
    FoldNone();
  }

  /** The last response of these for the address. */
  function Latest(pairs: seq<Pair>, url: Url): Option<Response> {
    if pairs == [] then None
    else if pairs[|pairs| - 1].url == url then Some(pairs[|pairs| - 1].response)
    else Latest(pairs[..|pairs| - 1], url)
  }

  lemma {:induction false} FoldLatest(pairs: seq<Pair>, url: Url)
    ensures Latest(pairs, url) == if url in Fold(pairs) then Some(Fold(pairs)[url]) else None
  {
    if pairs != [] {
      FoldLatest(pairs[..|pairs| - 1], url);
    }
  }

  /** What the cache of that name has for the address. */
  function Cached(st: State, name: string, url: Url): Option<Response> {
    if url in Contents(st, name) then Some(Contents(st, name)[url]) else None
  }

  /**
    So the cache has the last good answer for an address exactly when the last put made for that address carries
    it, and has nothing for an address without good answers exactly when no put has been made for it.
   */
  lemma UpToDateIff(origin: string, st: State, events: seq<Event>, name: string, url: Url)
    requires WellFormed(st) && !Exists(st.directory, name)
    ensures Cached(Run(origin, st, events), name, url) == Latest(GoodAnswers(origin, events), url) <==>
            Latest(PutsMade(origin, st, events, name, []), url) == Latest(GoodAnswers(origin, events), url)
  {
    hide Run, PutsMade, GoodAnswers, Contents;
    CacheHoldsPutsMade(origin, st, events, name);
    FoldLatest(PutsMade(origin, st, events, name, []), url);
  }

  // ---------- The order in which answers are put ----------

  /**
    The number of each waiting and each pending response: its place among the responses that were waiting at the
    start and the good answers since, or -1 for puts that were pending at the start.
   */
  datatype Stamps = Stamps(opens: seq<int>, puts: seq<int>, next: nat)

  function StampsAt(st: State): Stamps {
    Stamps(seq(|st.opens|, i => i), seq(|st.puts|, _ => -1), |st.opens|)
  }

  ghost function NextStamps(origin: string, q: Stamps, e: Event): Stamps {
    match e
    case Answered(_, _, _) =>
      if GoodAnswer(origin, e) == [] then q else q.(opens := q.opens + [q.next], next := q.next + 1)
    case Opened(k) =>
      if k >= |q.opens| then q else q.(opens := RemoveAt(q.opens, k), puts := q.puts + [q.opens[k]])
    case Put(k) => if k >= |q.puts| then q else q.(puts := RemoveAt(q.puts, k))
    case _ => q
  }

  /** The numbers of the responses put into the cache of that name since its last deletion, in the order of the puts. */
  ghost function PutOrder(
    origin: string, st: State, q: Stamps, events: seq<Event>, name: string, order: seq<int>): seq<int>
    decreases |events|
  {
    if events == [] then order
    else
      var e := events[0];
      PutOrder(origin, Step(origin, st, e), NextStamps(origin, q, e), events[1..], name, OrderBy(st, q, e, name, order))
  }

  function OrderBy(st: State, q: Stamps, e: Event, name: string, order: seq<int>): seq<int> {
    if e == Deleted(name) then []
    else if PutsInto(st, e, name) && e.k < |q.puts| then order + [q.puts[e.k]]
    else order
  }

  /** The last of these numbers whose response is for the address, or -1. */
  function LastFor(all: seq<Pair>, order: seq<int>, url: Url): (n: int)
    ensures n == -1 || (0 <= n < |all| && all[n].url == url)
  {
    if order == [] then -1
    else
      var n := order[|order| - 1];
      if 0 <= n < |all| && all[n].url == url then n else LastFor(all, order[..|order| - 1], url)
  }

  /** The number of the last answer for the address, from a given number on, or -1. */
  function LastAnswer(all: seq<Pair>, from: nat, url: Url): (n: int)
    requires from <= |all|
    ensures n == -1 || (from <= n < |all| && all[n].url == url)
    decreases |all|
  {
    if |all| == from then -1
    else if all[|all| - 1].url == url then |all| - 1
    else LastAnswer(all[..|all| - 1], from, url)
  }

  function ResponseOf(all: seq<Pair>, n: int): Option<Response> {
    if 0 <= n < |all| then Some(all[n].response) else None
  }

  lemma {:induction false} LatestIsLastAnswer(all: seq<Pair>, from: nat, url: Url)
    requires from <= |all|
    ensures Latest(all[from..], url) == ResponseOf(all, LastAnswer(all, from, url))
    decreases |all|
  {
    if from < |all| {
      var front := all[..|all| - 1];
      assert all[from..][..|all| - from - 1] == front[from..];
      LatestIsLastAnswer(front, from, url);
    }
  }

  /** The puts made are the responses with these numbers. */
  ghost predicate Numbered(all: seq<Pair>, order: seq<int>, made: seq<Pair>) {
    |order| == |made| && forall i :: 0 <= i < |order| ==> 0 <= order[i] < |all| && made[i] == all[order[i]]
  }

  lemma {:induction false} LatestIsLastFor(all: seq<Pair>, order: seq<int>, made: seq<Pair>, url: Url)
    requires Numbered(all, order, made)
    ensures Latest(made, url) == ResponseOf(all, LastFor(all, order, url))
    decreases |order|
  {
    if order != [] {
      LatestIsLastFor(all, order[..|order| - 1], made[..|made| - 1], url);
    }
  }

  predicate OpensNumbered(all: seq<Pair>, opens: seq<Opening>, numbers: seq<int>) {
    && |opens| == |numbers|
    && forall i :: 0 <= i < |opens| ==>
         0 <= numbers[i] < |all| && all[numbers[i]] == Pair(opens[i].url, opens[i].response)
  }

  predicate PutsNumbered(all: seq<Pair>, puts: seq<Putting>, numbers: seq<int>, base: nat) {
    && |puts| == |numbers|
    && forall i :: 0 <= i < |puts| ==>
         if numbers[i] == -1 then puts[i].id < base
         else 0 <= numbers[i] < |all| && all[numbers[i]] == Pair(puts[i].url, puts[i].response)
  }

  /** Caches of that name are newer than `base`, and so is every put that has a number. */
  ghost predicate InStep(st: State, q: Stamps, all: seq<Pair>, name: string, base: nat) {
    && OpensNumbered(all, st.opens, q.opens) && PutsNumbered(all, st.puts, q.puts, base)
    && q.next <= |all| && base <= st.nextId
    && forall c :: c in st.directory && c.name == name ==> c.id >= base
  }

  lemma StartInStep(st: State, all: seq<Pair>, name: string)
    requires WellFormed(st) && !Exists(st.directory, name) && Waiting(st.opens) <= all
    ensures InStep(st, StampsAt(st), all, name, st.nextId)
  {
    WaitingAre(st.opens);
    ExistsIff(st.directory, name);
  }

  lemma {:induction false} WaitingAre(opens: seq<Opening>)
    ensures |Waiting(opens)| == |opens|
    ensures forall i :: 0 <= i < |opens| ==> Waiting(opens)[i] == Pair(opens[i].url, opens[i].response)
  {
    if opens != [] {
      WaitingAre(opens[1..]);
    }
  }

  lemma PutInStep(origin: string, st: State, q: Stamps, e: Event, all: seq<Pair>, name: string, base: nat)
    requires InStep(st, q, all, name, base) && (e.Put? || e.Deleted? || e.Failed?)
    ensures InStep(Step(origin, st, e), NextStamps(origin, q, e), all, name, base)
  {
    hide PositionOf;
    if e.Deleted? {
      WithoutKeeps(st.directory, e.name, e.name);
    }
  }

  lemma OpenInStep(origin: string, st: State, q: Stamps, k: nat, all: seq<Pair>, name: string, base: nat)
    requires InStep(st, q, all, name, base)
    ensures InStep(Step(origin, st, Opened(k)), NextStamps(origin, q, Opened(k)), all, name, base)
  {
    hide PositionOf;
  }

  lemma AnswerInStep(origin: string, st: State, q: Stamps, e: Event, all: seq<Pair>, name: string, base: nat)
    requires InStep(st, q, all, name, base) && e.Answered?
    requires GoodAnswer(origin, e) <= all[q.next..]
    ensures InStep(Step(origin, st, e), NextStamps(origin, q, e), all, name, base)
    ensures NextStamps(origin, q, e).next == q.next + |GoodAnswer(origin, e)|
  {
    hide Handles, PositionOf;
  }

  lemma PutIsNumbered(
    st: State, q: Stamps, e: Event, all: seq<Pair>, name: string, base: nat, order: seq<int>, made: seq<Pair>)
    requires InStep(st, q, all, name, base) && Numbered(all, order, made)
    ensures Numbered(all, OrderBy(st, q, e, name, order), MadeBy(st, e, name, made))
  {
    if PutsInto(st, e, name) {
      assert st.directory[PositionOf(st.directory, name)] in st.directory;
    }
  }

  lemma {:induction false} RunIsNumbered(
    origin: string, st: State, q: Stamps, events: seq<Event>, all: seq<Pair>, name: string, base: nat,
    order: seq<int>, made: seq<Pair>)
    requires InStep(st, q, all, name, base) && Numbered(all, order, made)
    requires all[q.next..] == GoodAnswers(origin, events)
    ensures Numbered(all, PutOrder(origin, st, q, events, name, order), PutsMade(origin, st, events, name, made))
    decreases |events|
  {
    hide Step, InStep, Numbered, MadeBy, OrderBy, NextStamps, GoodAnswer;
    if events != [] {
      var e := events[0];
      StampsStep(origin, st, q, e, events[1..], all, name, base);
      PutIsNumbered(st, q, e, all, name, base, order, made);
      RunIsNumbered(origin, Step(origin, st, e), NextStamps(origin, q, e), events[1..], all, name, base,
                    OrderBy(st, q, e, name, order), MadeBy(st, e, name, made));
    }
  }

  lemma StampsStep(
    origin: string, st: State, q: Stamps, e: Event, rest: seq<Event>, all: seq<Pair>, name: string, base: nat)
    requires InStep(st, q, all, name, base)
    requires all[q.next..] == GoodAnswer(origin, e) + GoodAnswers(origin, rest)
    ensures InStep(Step(origin, st, e), NextStamps(origin, q, e), all, name, base)
    ensures NextStamps(origin, q, e).next <= |all|
    ensures all[NextStamps(origin, q, e).next..] == GoodAnswers(origin, rest)
  {
    hide Step, Handles, OpensNumbered, PutsNumbered;
    assert e.Answered? || GoodAnswer(origin, e) == [];
    assert all[q.next..][|GoodAnswer(origin, e)|..] == GoodAnswers(origin, rest);
    if e.Answered? {
      AnswerInStep(origin, st, q, e, all, name, base);
      assert all[q.next..][|GoodAnswer(origin, e)|..] == all[q.next + |GoodAnswer(origin, e)|..];
    } else if e.Opened? {
      OpenInStep(origin, st, q, e.k, all, name, base);
    } else {
      PutInStep(origin, st, q, e, all, name, base);
    }
  }

  /** Responses to the address are told apart by what they carry. */
  ghost predicate ToldApart(all: seq<Pair>, url: Url) {
    forall i, j :: 0 <= i < j < |all| && all[i].url == url && all[j].url == url ==> all[i].response != all[j].response
  }

  /**
    In every run, whatever is cached for an address is the response whose put was made last among those for it. So
    the cache has the last good answer since the start when that one has been put and no other response for the
    address after it, and, if no two responses to the address are equal, only then.
   */
  lemma UpToDateIffPutLast(origin: string, st: State, events: seq<Event>, name: string, url: Url)
    requires WellFormed(st) && !Exists(st.directory, name)
    ensures var all := Waiting(st.opens) + GoodAnswers(origin, events);
            var put := LastFor(all, PutOrder(origin, st, StampsAt(st), events, name, []), url);
            var answer := LastAnswer(all, |Waiting(st.opens)|, url);
            var cached := Cached(Run(origin, st, events), name, url);
            var upToDate := cached == Latest(GoodAnswers(origin, events), url);
            && cached == ResponseOf(all, put) && Latest(GoodAnswers(origin, events), url) == ResponseOf(all, answer)
            && (put == answer ==> upToDate)
            && (ToldApart(all, url) ==> (upToDate <==> put == answer))
  {
    hide Run, PutsMade, PutOrder, GoodAnswers, Contents, InStep, Waiting, LastFor, LastAnswer, StampsAt, WellFormed;
    var waiting, answers := Waiting(st.opens), GoodAnswers(origin, events);
    var all := waiting + answers;
    StartInStep(st, all, name);
    StartsBehind(st);
    assert all[|waiting|..] == answers;
    var made, order := PutsMade(origin, st, events, name, []), PutOrder(origin, st, StampsAt(st), events, name, []);
    RunIsNumbered(origin, st, StampsAt(st), events, all, name, st.nextId, [], []);
    CacheHoldsPutsMade(origin, st, events, name);
    FoldLatest(made, url);
    LatestIsLastFor(all, order, made, url);
    LatestIsLastAnswer(all, |waiting|, url);
  }

  lemma StartsBehind(st: State)
    ensures StampsAt(st).next == |Waiting(st.opens)|
  {
    WaitingAre(st.opens);
  }

  // ---------- From answers to puts ----------

  /** Pending puts into the cache object of that identifier. */
  function PutsFor(puts: seq<Putting>, id: nat): seq<Pair> {
    if puts == [] then []
    else (if puts[0].id == id then [Pair(puts[0].url, puts[0].response)] else []) + PutsFor(puts[1..], id)
  }

  lemma {:induction false} PutsForConcat(a: seq<Putting>, b: seq<Putting>, id: nat)
    ensures PutsFor(a + b, id) == PutsFor(a, id) + PutsFor(b, id)
    decreases |a|
  {
    if a == [] {
      assert a + b == b;
    } else {
      assert (a + b)[1..] == a[1..] + b;
      PutsForConcat(a[1..], b, id);
      var first := if a[0].id == id then [Pair(a[0].url, a[0].response)] else [];
      assert first + (PutsFor(a[1..], id) + PutsFor(b, id)) == (first + PutsFor(a[1..], id)) + PutsFor(b, id);
    }
  }

  lemma PutsForOne(p: Putting, id: nat)
    ensures PutsFor([p], id) == if p.id == id then [Pair(p.url, p.response)] else []
  {
    assert [p][1..] == [];
  }

  lemma PutsForSplit(puts: seq<Putting>, k: nat, id: nat)
    requires k < |puts|
    ensures PutsFor(puts, id) == PutsFor(puts[..k], id) + PutsFor([puts[k]], id) + PutsFor(puts[k + 1..], id)
    ensures PutsFor(RemoveAt(puts, k), id) == PutsFor(puts[..k], id) + PutsFor(puts[k + 1..], id)
    ensures k == 0 ==> PutsFor(puts[..k], id) == []
  {
    PutsForNone([], id);
    hide PutsFor;
    assert puts == puts[..k] + [puts[k]] + puts[k + 1..];
    PutsForConcat(puts[..k] + [puts[k]], puts[k + 1..], id);
    PutsForConcat(puts[..k], [puts[k]], id);
    PutsForConcat(puts[..k], puts[k + 1..], id);
  }

  lemma {:induction false} PutsForNone(puts: seq<Putting>, id: nat)
    requires forall p :: p in puts ==> p.id != id
    ensures PutsFor(puts, id) == []
  {
    if puts != [] {
      PutsForNone(puts[1..], id);
    }
  }

  lemma {:induction false} WaitingConcat(a: seq<Opening>, b: seq<Opening>)
    ensures Waiting(a + b) == Waiting(a) + Waiting(b)
    decreases |a|
  {
    if a == [] {
      assert a + b == b;
    } else {
      assert (a + b)[1..] == a[1..] + b;
      WaitingConcat(a[1..], b);
      var first := [Pair(a[0].url, a[0].response)];
      assert first + (Waiting(a[1..]) + Waiting(b)) == (first + Waiting(a[1..])) + Waiting(b);
    }
  }

  lemma WaitingOne(o: Opening)
    ensures Waiting([o]) == [Pair(o.url, o.response)]
  {
    assert [o][1..] == [];
  }

  lemma WaitingNone()
    ensures Waiting([]) == []
  {
  }

  lemma WaitingSplit(opens: seq<Opening>, k: nat)
    requires k < |opens|
    ensures Waiting(opens) == Waiting(opens[..k]) + [Pair(opens[k].url, opens[k].response)] + Waiting(opens[k + 1..])
    ensures Waiting(RemoveAt(opens, k)) == Waiting(opens[..k]) + Waiting(opens[k + 1..])
    ensures k == 0 ==> Waiting(opens[..k]) == []
  {
    WaitingNone();
    hide Waiting;
    Parts(opens, k);
    WaitingOfThree(opens[..k], opens[k], opens[k + 1..]);
  }

  lemma Parts<T>(s: seq<T>, k: nat)
    requires k < |s|
    ensures s == s[..k] + [s[k]] + s[k + 1..]
  {
  }

  lemma WaitingOfThree(before: seq<Opening>, o: Opening, after: seq<Opening>)
    ensures Waiting(before + [o] + after) == Waiting(before) + [Pair(o.url, o.response)] + Waiting(after)
    ensures Waiting(before + after) == Waiting(before) + Waiting(after)
  {
    WaitingOne(o);
    hide Waiting;
    WaitingConcat(before + [o], after);
    WaitingConcat(before, [o]);
    WaitingConcat(before, after);
  }

  /** The run of one worker version without clearing. */
  ghost predicate OneWorker(events: seq<Event>, name: string) {
    forall e :: e in events ==> e != Deleted(name) && (e.Answered? ==> e.name == name)
  }

  /** Moreover openings and puts take place in order. */
  ghost predicate InOrder(events: seq<Event>, name: string) {
    OneWorker(events, name) && forall e :: e in events ==> FirstFirst(e)
  }

  predicate FirstFirst(e: Event) {
    (e.Opened? ==> e.k == 0) && (e.Put? ==> e.k == 0)
  }

  function Pending(st: State, name: string): seq<Pair> {
    if Exists(st.directory, name) then PutsFor(st.puts, st.directory[PositionOf(st.directory, name)].id) else []
  }

  /** All that has been put, is pending and waits for the cache of that name, in order. */
  ghost function Underway(st: State, name: string, made: seq<Pair>): seq<Pair> {
    made + Pending(st, name) + Waiting(st.opens)
  }

  ghost predicate OnlyFor(st: State, name: string) {
    WellFormed(st) && forall o :: o in st.opens ==> o.name == name
  }

  /** Opening moves a waiting response behind the pending ones. */
  lemma OpenPending(origin: string, st: State, k: nat, name: string)
    requires OnlyFor(st, name) && k < |st.opens|
    ensures Pending(Step(origin, st, Opened(k)), name) ==
            Pending(st, name) + [Pair(st.opens[k].url, st.opens[k].response)]
  {
    hide PositionOf, Waiting, PutsFor;
    var o := st.opens[k];
    assert o in st.opens;
    var id := if Exists(st.directory, name) then st.directory[PositionOf(st.directory, name)].id else st.nextId;
    var p := Putting(id, o.url, o.response);
    PutsForConcat(st.puts, [p], id);
    PutsForOne(p, id);
    if !Exists(st.directory, name) {
      var c := Cache(name, st.nextId);
      NewPosition(st.directory, c);
      assert (st.directory + [c])[|st.directory|] == c;
      PutsForNone(st.puts, id);
    }
  }

  lemma OnlyForStep(origin: string, st: State, e: Event, name: string)
    requires OnlyFor(st, name) && (e.Answered? ==> e.name == name)
    ensures OnlyFor(Step(origin, st, e), name)
  {
    hide Handles, PositionOf, WellFormed;
    WellFormedStep(origin, st, e);
  }

  /** A good answer joins the end; failures and deletions of other caches change nothing. */
  lemma OtherUnderway(origin: string, st: State, e: Event, name: string, made: seq<Pair>)
    requires !e.Opened? && !e.Put? && e != Deleted(name)
    ensures Underway(Step(origin, st, e), name, MadeBy(st, e, name, made)) ==
            Underway(st, name, made) + GoodAnswer(origin, e)
  {
    hide Handles, PositionOf, Waiting, PutsFor;
    var front := made + Pending(st, name);
    if e.Answered? {
      var o := Opening(e.name, e.request.url, e.response);
      WaitingConcat(st.opens, [o]);
      WaitingOne(o);
      assert front + (Waiting(st.opens) + Waiting([o])) == front + Waiting(st.opens) + Waiting([o]);
    } else if e.Deleted? {
      PositionWithout(st.directory, e.name, name);
    }
  }

  /** An opening or a put rearranges what is under way, and moves nothing when it takes the first. */
  lemma OpenUnderway(origin: string, st: State, k: nat, name: string, made: seq<Pair>)
    requires OnlyFor(st, name) && k < |st.opens|
    ensures multiset(Underway(Step(origin, st, Opened(k)), name, made)) == multiset(Underway(st, name, made))
    ensures k == 0 ==> Underway(Step(origin, st, Opened(k)), name, made) == Underway(st, name, made)
  {
    hide OnlyFor, Waiting, Pending;
    OpenPending(origin, st, k, name);
    WaitingSplit(st.opens, k);
    assert Step(origin, st, Opened(k)).opens == RemoveAt(st.opens, k) by {
      OpenedOpens(origin, st, k);
    }
    Shifted(made + Pending(st, name), Waiting(st.opens[..k]), [Pair(st.opens[k].url, st.opens[k].response)],
            Waiting(st.opens[k + 1..]));
    assert made + (Pending(st, name) + [Pair(st.opens[k].url, st.opens[k].response)]) ==
           made + Pending(st, name) + [Pair(st.opens[k].url, st.opens[k].response)];
  }

  lemma OpenedOpens(origin: string, st: State, k: nat)
    requires k < |st.opens|
    ensures Step(origin, st, Opened(k)).opens == RemoveAt(st.opens, k)
  {
  }

  lemma Shifted(front: seq<Pair>, before: seq<Pair>, one: seq<Pair>, after: seq<Pair>)
    ensures multiset(front + one + (before + after)) == multiset(front + (before + one + after))
    ensures before == [] ==> front + one + (before + after) == front + (before + one + after)
  {
  }

  /** A put takes a pending response and makes it, or concerns another cache. */
  lemma PutPending(origin: string, st: State, k: nat, name: string)
    requires k < |st.puts| && Exists(st.directory, name)
    ensures var id := st.directory[PositionOf(st.directory, name)].id;
            && Pending(st, name) ==
               PutsFor(st.puts[..k], id) + PutsFor([st.puts[k]], id) + PutsFor(st.puts[k + 1..], id)
            && Pending(Step(origin, st, Put(k)), name) == PutsFor(st.puts[..k], id) + PutsFor(st.puts[k + 1..], id)
            && (forall made :: MadeBy(st, Put(k), name, made) == made + PutsFor([st.puts[k]], id))
            && (k == 0 ==> PutsFor(st.puts[..k], id) == [])
  {
    hide PositionOf, PutsFor;
    var id := st.directory[PositionOf(st.directory, name)].id;
    PutsForSplit(st.puts, k, id);
    PutsForOne(st.puts[k], id);
    forall made ensures MadeBy(st, Put(k), name, made) == made + PutsFor([st.puts[k]], id) {
      assert made + [] == made;
    }
  }

  lemma PutUnderway(origin: string, st: State, k: nat, name: string, made: seq<Pair>)
    requires k < |st.puts|
    ensures var after := Underway(Step(origin, st, Put(k)), name, MadeBy(st, Put(k), name, made));
            && multiset(after) == multiset(Underway(st, name, made))
            && (k == 0 ==> after == Underway(st, name, made))
  {
    PutLeaves(origin, st, k, name, made);
    hide PositionOf, Waiting, PutsFor, Pending, MadeBy, Step;
    if Exists(st.directory, name) {
      var id := st.directory[PositionOf(st.directory, name)].id;
      PutPending(origin, st, k, name);
      ShiftedFront(made, PutsFor(st.puts[..k], id), PutsFor([st.puts[k]], id), PutsFor(st.puts[k + 1..], id),
                   Waiting(st.opens));
    }
  }

  lemma PutLeaves(origin: string, st: State, k: nat, name: string, made: seq<Pair>)
    requires k < |st.puts|
    ensures Step(origin, st, Put(k)).opens == st.opens
    ensures !Exists(st.directory, name) ==>
              Pending(Step(origin, st, Put(k)), name) == Pending(st, name) && MadeBy(st, Put(k), name, made) == made
  {
    hide PositionOf, PutsFor;
  }

  lemma ShiftedFront(made: seq<Pair>, before: seq<Pair>, one: seq<Pair>, after: seq<Pair>, rest: seq<Pair>)
    ensures multiset(made + one + (before + after) + rest) == multiset(made + (before + one + after) + rest)
    ensures before == [] ==> made + one + (before + after) + rest == made + (before + one + after) + rest
    ensures made + [] == made
  {
  }

  lemma UnderwayStep(origin: string, st: State, e: Event, name: string, made: seq<Pair>)
    requires OnlyFor(st, name) && e != Deleted(name)
    ensures multiset(Underway(Step(origin, st, e), name, MadeBy(st, e, name, made))) ==
            multiset(Underway(st, name, made) + GoodAnswer(origin, e))
    ensures FirstFirst(e) ==>
              Underway(Step(origin, st, e), name, MadeBy(st, e, name, made)) ==
              Underway(st, name, made) + GoodAnswer(origin, e)
  {
    hide OnlyFor, Underway, Handles, PositionOf;
    assert Underway(st, name, made) + [] == Underway(st, name, made);
    if e.Opened? && e.k < |st.opens| {
      OpenUnderway(origin, st, e.k, name, made);
    } else if e.Put? && e.k < |st.puts| {
      PutUnderway(origin, st, e.k, name, made);
    } else if !e.Opened? && !e.Put? {
      OtherUnderway(origin, st, e, name, made);
    }
  }

  /** Over a run of one worker nothing is lost, and in order nothing changes its place. */
  lemma {:induction false} UnderwayRun(origin: string, st: State, events: seq<Event>, name: string, made: seq<Pair>)
    requires OnlyFor(st, name) && OneWorker(events, name)
    ensures var end := Underway(Run(origin, st, events), name, PutsMade(origin, st, events, name, made));
            && multiset(end) == multiset(Underway(st, name, made) + GoodAnswers(origin, events))
            && (InOrder(events, name) ==> end == Underway(st, name, made) + GoodAnswers(origin, events))
    decreases |events|
  {
    hide Step, OnlyFor, Underway, MadeBy, GoodAnswer, FirstFirst;
    var from := Underway(st, name, made);
    if events == [] {
      assert from + [] == from;
    } else {
      var e, rest := events[0], events[1..];
      assert e in events;
      UnderwayStep(origin, st, e, name, made);
      OnlyForStep(origin, st, e, name);
      UnderwayRun(origin, Step(origin, st, e), rest, name, MadeBy(st, e, name, made));
      assert from + GoodAnswer(origin, e) + GoodAnswers(origin, rest) ==
             from + (GoodAnswer(origin, e) + GoodAnswers(origin, rest));
      SameElements(Underway(Step(origin, st, e), name, MadeBy(st, e, name, made)), from + GoodAnswer(origin, e),
                   GoodAnswers(origin, rest));
    }
  }

  lemma SameElements(a: seq<Pair>, b: seq<Pair>, c: seq<Pair>)
    requires multiset(a) == multiset(b)
    ensures multiset(a + c) == multiset(b + c)
  {
  }

  lemma NothingUnderway(st: State, name: string)
    requires !Exists(st.directory, name)
    ensures Underway(st, name, []) == Waiting(st.opens)
  {
  }

  lemma OnlyWellFormed(st: State, name: string)
    requires OnlyFor(st, name)
    ensures WellFormed(st)
  {
  }

  lemma AllMade(st: State, name: string, made: seq<Pair>)
    requires st.opens == [] && st.puts == []
    ensures Underway(st, name, made) == made
  {
  }

  /**
    In order, at every moment: what has been put into the cache is the beginning of what was waiting at the start
    and then the good answers.
   */
  lemma PutsMadeInOrder(origin: string, st: State, name: string, events: seq<Event>)
    requires OnlyFor(st, name) && !Exists(st.directory, name) && InOrder(events, name)
    ensures PutsMade(origin, st, events, name, []) <= Waiting(st.opens) + GoodAnswers(origin, events)
    ensures Contents(Run(origin, st, events), name) == Fold(PutsMade(origin, st, events, name, []))
  {
    hide Run, PutsMade, GoodAnswers, OnlyFor, OneWorker, Contents, Fold, Pending;
    UnderwayRun(origin, st, events, name, []);
    NothingUnderway(st, name);
    OnlyWellFormed(st, name);
    CacheHoldsPutsMade(origin, st, events, name);
    var made := PutsMade(origin, st, events, name, []);
    var end := Run(origin, st, events);
    assert Underway(end, name, made)[..|made|] == made;
  }

  /** So when nothing is pending any more, the cache is that of what was waiting and the good answers. */
  lemma CacheUpToDate(origin: string, st: State, name: string, events: seq<Event>)
    requires OnlyFor(st, name) && !Exists(st.directory, name) && InOrder(events, name)
    requires var end := Run(origin, st, events); end.opens == [] && end.puts == []
    ensures Contents(Run(origin, st, events), name) == Fold(Waiting(st.opens) + GoodAnswers(origin, events))
  {
    hide Run, PutsMade, GoodAnswers, OnlyFor, OneWorker, Contents, Fold, Underway;
    UnderwayRun(origin, st, events, name, []);
    NothingUnderway(st, name);
    OnlyWellFormed(st, name);
    CacheHoldsPutsMade(origin, st, events, name);
    AllMade(Run(origin, st, events), name, PutsMade(origin, st, events, name, []));
  }

  /**
    So after a clearing the cache is that of the good answers since exactly when every address that was then waiting
    for its cache to be opened has had a good answer since.
   */
  lemma UpToDateSinceClearIff(origin: string, st: State, name: string, events: seq<Event>)
    requires OnlyFor(st, name) && InOrder(events, name)
    requires var end := Run(origin, Step(origin, st, Deleted(name)), events); end.opens == [] && end.puts == []
    ensures Contents(Run(origin, Step(origin, st, Deleted(name)), events), name) ==
            Fold(GoodAnswers(origin, events)) <==>
            forall p :: p in Waiting(st.opens) ==> Mentions(GoodAnswers(origin, events), p.url)
  {
    hide Run, GoodAnswers, InOrder, OnlyFor, Waiting, Fold, Mentions, Contents;
    var cleared := Step(origin, st, Deleted(name));
    OnlyForStep(origin, st, Deleted(name), name);
    WithoutKeeps(st.directory, name, name);
    ExistsIff(cleared.directory, name);
    CacheUpToDate(origin, cleared, name, events);
    EarlierForgottenIff(Waiting(st.opens), GoodAnswers(origin, events));
  }

  /**
    In any order, once nothing is pending, the puts made are a rearrangement of what was waiting and the good
    answers, so exactly the addresses of these are cached.
   */
  lemma PutsMadeRearranged(origin: string, st: State, name: string, events: seq<Event>)
    requires OnlyFor(st, name) && !Exists(st.directory, name) && OneWorker(events, name)
    requires var end := Run(origin, st, events); end.opens == [] && end.puts == []
    ensures multiset(PutsMade(origin, st, events, name, [])) ==
            multiset(Waiting(st.opens) + GoodAnswers(origin, events))
    ensures Contents(Run(origin, st, events), name).Keys ==
            Fold(Waiting(st.opens) + GoodAnswers(origin, events)).Keys
  {
    hide Run, PutsMade, GoodAnswers, OnlyFor, OneWorker, Contents, Fold, Underway;
    UnderwayRun(origin, st, events, name, []);
    NothingUnderway(st, name);
    OnlyWellFormed(st, name);
    AllMade(Run(origin, st, events), name, PutsMade(origin, st, events, name, []));
    CacheHoldsPutsMade(origin, st, events, name);
    SameKeys(PutsMade(origin, st, events, name, []), Waiting(st.opens) + GoodAnswers(origin, events));
  }

  lemma SameKeys(a: seq<Pair>, b: seq<Pair>)
    requires multiset(a) == multiset(b)
    ensures Fold(a).Keys == Fold(b).Keys
  {
    hide Fold;
    forall url: Url ensures url in Fold(a) <==> url in Fold(b) {
      FoldIsLatest(a, url);
      FoldIsLatest(b, url);
      MentionsAgain(a, b, url);
      MentionsAgain(b, a, url);
    }
  }

  lemma MentionsAgain(a: seq<Pair>, b: seq<Pair>, url: Url)
    requires multiset(a) == multiset(b)
    ensures Mentions(a, url) ==> Mentions(b, url)
  {
    if i :| 0 <= i < |a| && a[i].url == url {
      assert a[i] in multiset(b);
    }
  }

  function OldThenNewOpened(url: Url, name: string): State {
    State([Cache(name, 0)], map[0 := map[]], 1, [],
          [Putting(0, url, Response(200, "old")), Putting(0, url, Response(200, "new"))])
  }

  lemma BothOpened(origin: string, url: Url, name: string)
    requires Cacheable(origin, url)
    ensures var request := Request("GET", false, url);
            var a := Step(origin, EMPTY, Answered(name, request, Response(200, "old")));
            var b := Step(origin, a, Answered(name, request, Response(200, "new")));
            Step(origin, Step(origin, b, Opened(0)), Opened(0)) == OldThenNewOpened(url, name)
  {
    hide Cacheable;
    var request := Request("GET", false, url);
    var a := Step(origin, EMPTY, Answered(name, request, Response(200, "old")));
    var b := Step(origin, a, Answered(name, request, Response(200, "new")));
    assert b == State(
      [], map[], 0, [Opening(name, url, Response(200, "old")), Opening(name, url, Response(200, "new"))], []);
    var c := Step(origin, b, Opened(0));
    assert c == State([Cache(name, 0)], map[0 := map[]], 1, [Opening(name, url, Response(200, "new"))],
                      [Putting(0, url, Response(200, "old"))]);
  }

  lemma BothPut(origin: string, url: Url, name: string)
    ensures var f := Step(origin, Step(origin, OldThenNewOpened(url, name), Put(1)), Put(0));
            f.opens == [] && f.puts == [] && Contents(f, name) == map[url := Response(200, "old")]
  {
    var d := OldThenNewOpened(url, name);
    var e := Step(origin, d, Put(1));
    assert e.puts == [Putting(0, url, Response(200, "old"))] && e.stores[0] == map[url := Response(200, "new")];
    var f := Step(origin, e, Put(0));
    assert f.puts == [] && f.stores[0] == map[url := Response(200, "old")];
  }

  /** Out of order, the older of two responses to one address can stay in the cache. */
  lemma OlderPutLast(origin: string, url: Url, name: string)
    requires Cacheable(origin, url)
    ensures exists events: seq<Event> ::
              && GoodAnswers(origin, events) == [Pair(url, Response(200, "old")), Pair(url, Response(200, "new"))]
              && Run(origin, EMPTY, events).opens == [] && Run(origin, EMPTY, events).puts == []
              && Contents(Run(origin, EMPTY, events), name) == map[url := Response(200, "old")]
  {
    hide Cacheable, Step, Contents, Run, GoodAnswers, OldThenNewOpened;
    var request := Request("GET", false, url);
    var events := [Answered(name, request, Response(200, "old")), Answered(name, request, Response(200, "new")),
                   Opened(0), Opened(0), Put(1), Put(0)];
    var a := Step(origin, EMPTY, events[0]);
    var b := Step(origin, a, events[1]);
    var c := Step(origin, b, events[2]);
    var d := Step(origin, c, events[3]);
    var e := Step(origin, d, events[4]);
    RunFrom(origin, EMPTY, events, 0);
    RunFrom(origin, a, events, 1);
    RunFrom(origin, b, events, 2);
    RunFrom(origin, c, events, 3);
    RunFrom(origin, d, events, 4);
    RunFrom(origin, e, events, 5);
    BothOpened(origin, url, name);
    BothPut(origin, url, name);
    OldThenNew(origin, url, name, events);
  }

  lemma OldThenNew(origin: string, url: Url, name: string, events: seq<Event>)
    requires Cacheable(origin, url)
    requires var request := Request("GET", false, url);
             events == [Answered(name, request, Response(200, "old")), Answered(name, request, Response(200, "new")),
                        Opened(0), Opened(0), Put(1), Put(0)]
    ensures GoodAnswers(origin, events) == [Pair(url, Response(200, "old")), Pair(url, Response(200, "new"))]
  {
    hide Cacheable, GoodAnswers;
    GoodFrom(origin, events, 0);
    GoodFrom(origin, events, 1);
    GoodFrom(origin, events, 2);
    GoodFrom(origin, events, 3);
    GoodFrom(origin, events, 4);
    GoodFrom(origin, events, 5);
  }

  /** Running from position `i` is the step there and running from the next. */
  lemma RunFrom(origin: string, st: State, events: seq<Event>, i: nat)
    requires i < |events|
    ensures Run(origin, st, events[i..]) == Run(origin, Step(origin, st, events[i]), events[i + 1..])
    ensures i + 1 == |events| ==> Run(origin, st, events[i..]) == Step(origin, st, events[i])
    ensures i == 0 ==> Run(origin, st, events) == Run(origin, st, events[i..])
  {
    hide Step;
    assert events[i..][1..] == events[i + 1..];
    assert i == 0 ==> events[i..] == events;
  }

  lemma GoodFrom(origin: string, events: seq<Event>, i: nat)
    requires i < |events|
    ensures GoodAnswers(origin, events[i..]) == GoodAnswer(origin, events[i]) + GoodAnswers(origin, events[i + 1..])
    ensures i + 1 == |events| ==> GoodAnswers(origin, events[i + 1..]) == []
    ensures i == 0 ==> GoodAnswers(origin, events) == GoodAnswers(origin, events[i..])
  {
    hide GoodAnswer;
    assert events[i..][1..] == events[i + 1..];
    assert i == 0 ==> events[i..] == events;
  }
}
