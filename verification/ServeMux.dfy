/** lib/asio_server_serve_mux.cc: pattern registration and request routing. */
module ServeMux {
  import opened Basics
  import opened Text
  import opened PathBuffer
  import opened PathClean
  import opened PathShape
  import opened Percent

  /** request_cb: an empty function, a user's handler, or one of the two handlers the library makes itself. */
  datatype Callback = Empty | User(id: int) | RedirectTo(status: int, uri: string) | StatusPage(status: int)

  datatype Entry = Entry(userDefined: bool, cb: Callback, pattern: string)

  type Mux = map<string, Entry>

  // ---------------------------------------------------------------- handle

  predicate EndsInSlash(s: string) {
    s != "" && s[|s| - 1] == '/'
  }

  /** The path part of a pattern that may start with a host. */
  function PatternPath(pattern: string): string {
    pattern[Find(pattern, '/')..]
  }

  predicate Accepts(mux: Mux, pattern: string, cb: Callback) {
    pattern != "" && !cb.Empty? && (pattern in mux ==> !mux[pattern].userDefined)
  }

  function Implicit(pattern: string): Entry {
    Entry(false, RedirectTo(301, PatternPath(pattern)), pattern)
  }

  /** The mux after handle(pattern, cb): line 72's emplace inserts only when the key is absent. */
  function Registered(mux: Mux, pattern: string, cb: Callback): (r: Mux) {
    if !Accepts(mux, pattern, cb) then mux
    else
      var key := pattern[..|pattern| - 1];
      var mux1 := if |pattern| >= 2 && EndsInSlash(pattern) && (key in mux ==> !mux[key].userDefined)
                  then mux[key := Implicit(pattern)] else mux;
      if pattern in mux1 then mux1 else mux1[pattern := Entry(true, cb, pattern)]
  }

  /** PathMatch(pattern, path): a pattern ending in a slash names a subtree, any other names one path. */
  predicate PathMatch(pattern: string, path: string)
    requires pattern != ""
  {
    if pattern[|pattern| - 1] != '/' then pattern == path else StartsWith(path, pattern)
  }

  /** The reference for match: the longest prefix of path that is a matching key, found by length alone. */
  function Longest(mux: Mux, path: string, n: nat): (key: Option<string>)
    requires n <= |path|
    ensures key.Some? ==> key.value in mux && key.value != "" && PathMatch(key.value, path)
  {
    if n == 0 then None
    else if path[..n] in mux && PathMatch(path[..n], path) then Some(path[..n])
    else Longest(mux, path, n - 1)
  }

  class Server {
    var mux: Mux

    ghost predicate Valid()
      reads this
    {
      "" !in mux
    }

    constructor ()
      ensures mux == map[]
    {
      mux := map[];
    }

    method Handle(pattern: string, cb: Callback) returns (ok: bool)
      requires Valid()
      modifies this
      ensures Valid()
      ensures ok <==> Accepts(old(mux), pattern, cb)
      ensures mux == Registered(old(mux), pattern, cb)
    {
      if pattern == "" || cb.Empty? {
        return false;
      }
      if pattern in mux && mux[pattern].userDefined {
        return false;
      }
      if |pattern| >= 2 && pattern[|pattern| - 1] == '/' {
        var key := pattern[..|pattern| - 1];
        if key !in mux || !mux[key].userDefined {
          var path := if pattern[0] == '/' then pattern else pattern[Find(pattern, '/')..];
          mux := mux[key := Entry(false, RedirectTo(301, path), pattern)];
        }
      }
      if pattern !in mux {
        mux := mux[pattern := Entry(true, cb, pattern)];
      }
      return true;
    }

    /** match: visits the entries in an arbitrary order and keeps the longest matching pattern. */
    method Match(path: string) returns (cb: Callback)
      requires Valid()
      ensures var key := Longest(mux, path, |path|);
              && cb == (if key.Some? then mux[key.value].cb else Empty)
              && (key.Some? ==> IsLongest(mux.Keys, path, key.value))
              && (key.None? ==> forall k | k in mux :: !Names(k, path))
    {
      var ent: Option<Entry> := None;
      var best := 0;
      var left := mux.Keys;
      ghost var bestKey := "";
      while left != {}
        invariant left <= mux.Keys
        invariant ent.None? ==> forall k | k in mux && k !in left :: !Names(k, path)
        invariant ent.Some? ==> IsLongest(mux.Keys - left, path, bestKey) && bestKey in mux && ent.value == mux[bestKey]
        invariant ent.Some? ==> best == |bestKey|
        decreases left
      {
        var pattern :| pattern in left;
        left := left - {pattern};
        PathMatchMeaning(pattern, path);
        if !PathMatch(pattern, path) {
          continue;
        }
        if ent.None? || best < |pattern| {
          best := |pattern|;
          ent := Some(mux[pattern]);
          bestKey := pattern;
        }
      }
      assert mux.Keys - left == mux.Keys;
      if ent.Some? {
        LongestIsLongest(mux, path, bestKey);
        return ent.value.cb;
      }
      NoMatch(mux, path);
      return Empty;
    }

    /** handler: normalise the path, then try host + path, then path. */
    method Handler(connect: bool, host: string, path: string, rawQuery: string) returns (cb: Callback)
      requires Valid() && IsBytes(path)
      ensures cb == Route(mux, connect, host, path, rawQuery)
    {
      if !connect {
        var buf, len := PathJoin("", "", path, "");
        var clean := buf[..len];
        if clean != path {
          CleanBytes(path);
          var uri := PercentEncodePath(clean);
          if rawQuery != "" {
            uri := uri + "?" + rawQuery;
          }
          return RedirectTo(301, uri);
        }
      }
      cb := Match(host + path);
      if !cb.Empty? {
        return;
      }
      cb := Match(path);
      if !cb.Empty? {
        return;
      }
      return StatusPage(404);
    }
  }

  // ---------------------------------------------------------------- match

  /** What a pattern stands for: one path, or with a slash at its end also everything below it. */
  predicate Names(key: string, path: string) {
    key == path || (EndsInSlash(key) && key <= path)
  }

  lemma PathMatchMeaning(pattern: string, path: string)
    requires pattern != ""
    ensures PathMatch(pattern, path) <==> Names(pattern, path)
  {
    if pattern == path { assert path[..|path|] == path; }
  }

  /** Key is a longest key among keys that names path. */
  ghost predicate IsLongest(keys: set<string>, path: string, key: string)
    requires "" !in keys
  {
    && key in keys && Names(key, path)
    && forall k | k in keys && Names(k, path) :: |k| <= |key|
  }

  lemma MatchIsPrefix(pattern: string, path: string)
    requires pattern != "" && PathMatch(pattern, path)
    ensures |pattern| <= |path| && path[..|pattern|] == pattern
  {
    if pattern == path { assert path[..|path|] == path; }
  }

  lemma {:induction false} LongestSkips(mux: Mux, path: string, n: nat, m: nat)
    requires m <= n <= |path|
    requires forall i | m < i <= n :: path[..i] !in mux || !PathMatch(path[..i], path)
    ensures Longest(mux, path, n) == Longest(mux, path, m)
  {
    if m < n { LongestSkips(mux, path, n - 1, m); }
  }

  /** A longest matching key is unique, and it is the one Longest finds. */
  lemma LongestIsLongest(mux: Mux, path: string, key: string)
    requires "" !in mux && IsLongest(mux.Keys, path, key)
    ensures Longest(mux, path, |path|) == Some(key)
  {
    MatchIsPrefix(key, path);
    LongestSkips(mux, path, |path|, |key|);
  }

  lemma NoMatch(mux: Mux, path: string)
    requires "" !in mux && forall k | k in mux :: !Names(k, path)
    ensures Longest(mux, path, |path|) == None
  {
    LongestSkips(mux, path, |path|, 0);
  }

  lemma {:induction false} LongestBounds(mux: Mux, path: string, n: nat, k: string)
    requires n <= |path| && "" !in mux && k in mux && PathMatch(k, path) && |k| <= n
    ensures Longest(mux, path, n).Some? && |k| <= |Longest(mux, path, n).value|
  {
    MatchIsPrefix(k, path);
    if n > |k| && !(path[..n] in mux && PathMatch(path[..n], path)) {
      LongestBounds(mux, path, n - 1, k);
    }
  }

  /** Longest finds a key exactly when one matches, and then the unique longest one. */
  lemma LongestMeaning(mux: Mux, path: string, key: string)
    requires "" !in mux
    ensures Longest(mux, path, |path|) == Some(key) <==> IsLongest(mux.Keys, path, key)
  {
    if Longest(mux, path, |path|) == Some(key) {
      PathMatchMeaning(key, path);
      forall k | k in mux && Names(k, path) ensures |k| <= |key| {
        PathMatchMeaning(k, path);
        MatchIsPrefix(k, path);
        LongestBounds(mux, path, |path|, k);
      }
    }
    if IsLongest(mux.Keys, path, key) {
      LongestIsLongest(mux, path, key);
    }
  }

  // ---------------------------------------------------------------- routing

  function Location(path: string, rawQuery: string): string
    requires IsBytes(path)
  {
    WithQuery(Encode(path), rawQuery)
  }

  /** The key of the entry that serves (host, path): host-specific patterns go first. */
  function Select(mux: Mux, host: string, path: string): (key: Option<string>)
    ensures key.Some? ==> key.value in mux
  {
    var specific := Longest(mux, host + path, |host + path|);
    if specific.Some? && !mux[specific.value].cb.Empty? then specific else Longest(mux, path, |path|)
  }

  function Route(mux: Mux, connect: bool, host: string, path: string, rawQuery: string): Callback
    requires IsBytes(path)
  {
    CleanBytes(path);
    if !connect && Clean(path) != path then RedirectTo(301, Location(Clean(path), rawQuery))
    else
      var key := Select(mux, host, path);
      if key.Some? && !mux[key.value].cb.Empty? then mux[key.value].cb else StatusPage(404)
  }

  // ---------------------------------------------------------------- normalising redirects

  lemma {:induction false} EatFileBytes(out: string)
    requires IsBytes(out)
    ensures IsBytes(EatFile(out))
  {
    if out != "" && out[|out| - 1] != '/' { EatFileBytes(out[..|out| - 1]); }
  }

  lemma {:induction false} SkipSlashesBytes(s: string)
    requires IsBytes(s)
    ensures IsBytes(SkipSlashes(s))
  {
    if s != "" && s[0] == '/' { SkipSlashesBytes(s[1..]); }
  }

  lemma EatDirBytes(out: string)
    requires IsBytes(out)
    ensures IsBytes(EatDir(out))
  {
    var p := EatFile(out);
    EatFileBytes(out);
    EatFileBytes(p[..|p| - 1]);
  }

  lemma {:induction false} WalkBytes(out: string, rel: string)
    requires out != "" && IsBytes(out) && IsBytes(rel)
    ensures IsBytes(Walk(out, rel))
    decreases |rel|
  {
    EatDirBytes(out);
    if rel == "" || IsDot(rel) || IsDotDot(rel) {
    } else if DotSlash(rel) {
      WalkBytes(out, rel[2..]);
    } else if DotDotSlash(rel) {
      WalkBytes(EatDir(out), rel[3..]);
    } else {
      EatFileBytes(out);
      var k := Find(rel, '/');
      if k < |rel| {
        SkipSlashesBytes(rel[k + 1..]);
        WalkBytes(Directory(out) + rel[..k + 1], SkipSlashes(rel[k + 1..]));
      }
    }
  }

  lemma CleanBytes(path: string)
    requires IsBytes(path)
    ensures IsBytes(Clean(path))
  {
    if path != "" { SkipSlashesBytes(path[1..]); }
    CleanIsWalk(path);
    WalkBytes("/", Body(path));
  }

  /** Sent back as a request target, a redirect's Location is split into exactly the path and query it stands for. */
  lemma LocationRoundTrip(path: string, rawQuery: string)
    requires IsBytes(path)
    ensures Decode(PathPart(Location(path, rawQuery))) == path
    ensures QueryPart(Location(path, rawQuery)) == rawQuery
  {
    EncodeAlphabet(path);
    SplitAtQuery(Encode(path), rawQuery);
    DecodeEncode(path);
  }

  /** What split_path keeps of a request target. */
  datatype Target = Target(path: string, rawQuery: string)

  /** The target of a request for uri */
  function Requested(uri: string): Target {
    Target(Decode(PathPart(uri)), QueryPart(uri))
  }

  /** The target of the client's next request: unchanged, or the Location of the normalising redirect split again. */
  function Hop(t: Target): (next: Target)
    requires IsBytes(t.path)
    ensures IsBytes(next.path)
  {
    CleanBytes(t.path);
    if Clean(t.path) == t.path then t
    else
      LocationRoundTrip(Clean(t.path), t.rawQuery);
      Requested(Location(Clean(t.path), t.rawQuery))
  }

  /** A hop cleans the path and leaves the query alone. */
  lemma HopMeaning(t: Target)
    requires IsBytes(t.path)
    ensures Hop(t) == Target(Clean(t.path), t.rawQuery)
  {
    CleanBytes(t.path);
    LocationRoundTrip(Clean(t.path), t.rawQuery);
  }

  /** Two hops always suffice: the target they reach is served without a further redirect. */
  lemma RedirectsEnd(t: Target)
    requires IsBytes(t.path)
    ensures var last := Hop(Hop(t)); Normal(last.path) && last.rawQuery == t.rawQuery && Hop(last) == last
  {
    HopMeaning(t);
    HopMeaning(Hop(t));
    CleanTwiceNormal(t.path);
    CleanFixpoint(Hop(Hop(t)).path);
  }

  /** For a request other than CONNECT, Route answers with the redirect that Hop follows, exactly when Hop moves. */
  lemma RouteRedirects(mux: Mux, host: string, t: Target)
    requires IsBytes(t.path) && !Normal(t.path)
    ensures var cb := Route(mux, false, host, t.path, t.rawQuery);
            cb.RedirectTo? && cb.status == 301 && Requested(cb.uri) == Hop(t) != t
  {
    CleanFixpoint(t.path);
    HopMeaning(t);
    CleanBytes(t.path);
    LocationRoundTrip(Clean(t.path), t.rawQuery);
  }

  /** No key of mux names path. */
  ghost predicate Unmatched(mux: Mux, path: string)
    requires "" !in mux
  {
    forall k | k in mux :: !Names(k, path)
  }

  /**
    Otherwise Route answers with the longest match of host + path, failing that of path, failing that with 404; for
    every map that handle calls can build.
  */
  lemma RouteServes(calls: seq<Call>, connect: bool, host: string, path: string, rawQuery: string)
    requires IsBytes(path) && (connect || Normal(path))
    ensures "" !in Build(calls)
    ensures var mux := Build(calls); var cb := Route(mux, connect, host, path, rawQuery);
            && (forall key | IsLongest(mux.Keys, host + path, key) :: cb == mux[key].cb)
            && (Unmatched(mux, host + path) ==> forall key | IsLongest(mux.Keys, path, key) :: cb == mux[key].cb)
            && (Unmatched(mux, host + path) && Unmatched(mux, path) ==> cb == StatusPage(404))
  {
    var mux := Build(calls);
    BuildCallable(calls);
    CleanFixpoint(path);
    forall key | IsLongest(mux.Keys, host + path, key)
      ensures Route(mux, connect, host, path, rawQuery) == mux[key].cb
    {
      LongestMeaning(mux, host + path, key);
    }
    if Unmatched(mux, host + path) {
      NoMatch(mux, host + path);
      forall key | IsLongest(mux.Keys, path, key)
        ensures Route(mux, connect, host, path, rawQuery) == mux[key].cb
      {
        LongestMeaning(mux, path, key);
      }
      if Unmatched(mux, path) { NoMatch(mux, path); }
    }
  }

  /** A request at or below a subtree pattern never gets the library's 404: the answer is at least as specific. */
  lemma SubtreeServes(calls: seq<Call>, connect: bool, host: string, k: string, rest: string, rawQuery: string)
    returns (key: string)
    requires k in Build(calls) && EndsInSlash(k) && IsBytes(k + rest) && (connect || Normal(k + rest))
    ensures var mux, path := Build(calls), k + rest;
            && key in mux && Route(mux, connect, host, path, rawQuery) == mux[key].cb
            && (Names(key, host + path) || (Names(key, path) && |k| <= |key|))
  {
    var mux, path := Build(calls), k + rest;
    BuildCallable(calls);
    CleanFixpoint(path);
    assert Names(k, path);
    PathMatchMeaning(k, path);
    LongestBounds(mux, path, |path|, k);
    key := Select(mux, host, path).value;
    PathMatchMeaning(key, host + path);
    PathMatchMeaning(key, path);
  }

  lemma {:induction false} BuildCallable(calls: seq<Call>)
    ensures "" !in Build(calls) && forall k | k in Build(calls) :: !Build(calls)[k].cb.Empty?
  {
    if calls != [] { BuildCallable(calls[..|calls| - 1]); }
  }

  // ---------------------------------------------------------------- registration over whole runs

  datatype Call = Call(pattern: string, cb: Callback)

  /** The mux after a sequence of handle calls on a new server. */
  function Build(calls: seq<Call>): Mux {
    if calls == [] then map[]
    else
      var last := calls[|calls| - 1];
      Registered(Build(calls[..|calls| - 1]), last.pattern, last.cb)
  }

  /** No call displaces a user-defined entry, and no call loses a key. */
  lemma UserEntriesStay(mux: Mux, pattern: string, cb: Callback)
    ensures forall k | k in mux && mux[k].userDefined ::
              k in Registered(mux, pattern, cb) && Registered(mux, pattern, cb)[k] == mux[k]
    ensures forall k | k in mux :: k in Registered(mux, pattern, cb)
  {
  }

  lemma {:induction false} UserEntriesStayForever(calls: seq<Call>, n: nat, k: string)
    requires n <= |calls| && k in Build(calls[..n]) && Build(calls[..n])[k].userDefined
    ensures k in Build(calls) && Build(calls)[k] == Build(calls[..n])[k]
    decreases |calls|
  {
    if n == |calls| {
      assert calls[..n] == calls;
    } else {
      var front := calls[..|calls| - 1];
      assert front[..n] == calls[..n];
      UserEntriesStayForever(front, n, k);
      UserEntriesStay(Build(front), calls[|calls| - 1].pattern, calls[|calls| - 1].cb);
    }
  }

  /** handle returning true installs the callback exactly when no implicit redirect already sits at the key. */
  lemma InstallsExactlyWhenFree(mux: Mux, pattern: string, cb: Callback)
    requires Accepts(mux, pattern, cb)
    ensures var after := Registered(mux, pattern, cb);
            && pattern in after
            && (after[pattern] == Entry(true, cb, pattern) <==> pattern !in mux)
            && (pattern in mux ==> after[pattern] == mux[pattern])
  {
  }

  /** Call i of calls was accepted and registered pattern. */
  predicate AcceptedAt(calls: seq<Call>, i: nat, pattern: string) {
    i < |calls| && calls[i].pattern == pattern && Accepts(Build(calls[..i]), pattern, calls[i].cb)
  }

  /** An implicit entry comes from an accepted call for the subtree below it. */
  lemma {:induction false} ImplicitFrom(calls: seq<Call>, k: string) returns (i: nat)
    requires k in Build(calls) && !Build(calls)[k].userDefined
    ensures AcceptedAt(calls, i, k + "/")
    decreases |calls|
  {
    var front, last := calls[..|calls| - 1], calls[|calls| - 1];
    if k in Build(front) && !Build(front)[k].userDefined {
      i := ImplicitFrom(front, k);
      assert calls[..i] == front[..i];
    } else {
      i := |calls| - 1;
      UserEntriesStay(Build(front), last.pattern, last.cb);
      assert last.pattern[..|last.pattern| - 1] + "/" == last.pattern;
    }
  }

  /** And such a call leaves an entry there for good. */
  lemma {:induction false} KeyFrom(calls: seq<Call>, i: nat, k: string)
    requires k != "" && AcceptedAt(calls, i, k + "/")
    ensures k in Build(calls)
    decreases |calls|
  {
    var front, last := calls[..|calls| - 1], calls[|calls| - 1];
    if i < |front| {
      assert front[..i] == calls[..i];
      KeyFrom(front, i, k);
      UserEntriesStay(Build(front), last.pattern, last.cb);
    } else {
      assert (k + "/")[..|k|] == k;
    }
  }

  /** In a caller's terms: an accepted pattern is not installed if and only if the subtree below it was accepted before. */
  lemma NotInstalledExactly(calls: seq<Call>, pattern: string, cb: Callback)
    requires Accepts(Build(calls), pattern, cb)
    ensures pattern in Registered(Build(calls), pattern, cb)
    ensures Registered(Build(calls), pattern, cb)[pattern] != Entry(true, cb, pattern)
       <==> exists i: nat :: AcceptedAt(calls, i, pattern + "/")
  {
    InstallsExactlyWhenFree(Build(calls), pattern, cb);
    if pattern in Build(calls) {
      var i := ImplicitFrom(calls, pattern);
    }
    if i: nat :| AcceptedAt(calls, i, pattern + "/") { KeyFrom(calls, i, pattern); }
  }

  /** Registering "/foo/" and then "/foo" reports success twice, but "/foo" still redirects. */
  lemma AcceptedButNotInstalled(a: Callback, b: Callback)
    requires !a.Empty? && !b.Empty?
    ensures var first := Build([Call("/foo/", a)]);
            && Accepts(first, "/foo", b)
            && Registered(first, "/foo", b)["/foo"].cb == RedirectTo(301, "/foo/")
  {
    var calls := [Call("/foo/", a)];
    assert calls[..0] == [] && Build([]) == map[];
    var mux := Registered(map[], "/foo/", a);
    assert Build(calls) == mux;
    assert "/foo/"[..4] == "/foo";
    FindUnique("/foo/", '/', 0);
    assert "/foo/"[0..] == "/foo/";
    assert "/foo" in mux && mux["/foo"] == Implicit("/foo/");
    InstallsExactlyWhenFree(mux, "/foo", b);
  }

  /** A subtree pattern must be a path as it is requested, since it becomes a Location; other patterns may be anything. */
  predicate PlainPattern(pattern: string) {
    |pattern| >= 2 && EndsInSlash(pattern) ==> NoSlashRun(pattern) && '%' !in pattern && '?' !in pattern
  }

  /** An implicit entry sits one slash short of a user-defined subtree pattern and redirects to it. */
  predicate ImplicitOk(mux: Mux, k: string)
    requires k in mux
  {
    var pattern := k + "/";
    mux[k] == Implicit(pattern) && PlainPattern(pattern) && pattern in mux && mux[pattern].userDefined
  }

  predicate UserOk(mux: Mux, k: string)
    requires k in mux
  {
    && mux[k].pattern == k && !mux[k].cb.Empty?
    && (|k| >= 2 && EndsInSlash(k) ==> k[..|k| - 1] in mux)
  }

  /** What every mux built from plain patterns satisfies. */
  predicate WellFormed(mux: Mux) {
    && "" !in mux
    && forall k | k in mux :: EntryOk(mux, k)
  }

  predicate EntryOk(mux: Mux, k: string)
    requires k in mux
  {
    if mux[k].userDefined then UserOk(mux, k) else ImplicitOk(mux, k)
  }

  /** Implicit keys of plain patterns never end in a slash. */
  lemma ImplicitKeyShape(k: string)
    requires k != "" && PlainPattern(k + "/")
    ensures !EndsInSlash(k)
  {
    assert !RunAt(k + "/", |k| - 1);
  }

  /** A later map has all keys of an earlier one and its user-defined entries. */
  predicate Extends(mux: Mux, after: Mux) {
    forall k | k in mux :: k in after && (mux[k].userDefined ==> after[k] == mux[k])
  }

  lemma KeptEntryOk(mux: Mux, after: Mux, k: string)
    requires WellFormed(mux) && Extends(mux, after) && k in mux && after[k] == mux[k]
    ensures EntryOk(after, k)
  {
    assert EntryOk(mux, k);
  }

  /** A subtree pattern that is accepted is installed: no implicit key ends in a slash. */
  lemma SubtreeInstalled(mux: Mux, pattern: string, cb: Callback)
    requires WellFormed(mux) && PlainPattern(pattern) && Accepts(mux, pattern, cb)
    requires |pattern| >= 2 && EndsInSlash(pattern)
    ensures pattern !in mux && pattern[..|pattern| - 1] + "/" == pattern
  {
    if pattern in mux {
      assert EntryOk(mux, pattern);
      ImplicitKeyShape(pattern);
      assert false;
    }
  }

  lemma RegisteredKeys(mux: Mux, pattern: string, cb: Callback, k: string)
    requires Accepts(mux, pattern, cb) && k in Registered(mux, pattern, cb)
    ensures var after := Registered(mux, pattern, cb);
            || (k in mux && after[k] == mux[k])
            || (k == pattern && after[k] == Entry(true, cb, pattern))
            || (k == pattern[..|pattern| - 1] && after[k] == Implicit(pattern) && |pattern| >= 2 && EndsInSlash(pattern))
  {
  }

  lemma RegisteredWellFormed(mux: Mux, pattern: string, cb: Callback)
    requires WellFormed(mux) && PlainPattern(pattern)
    ensures WellFormed(Registered(mux, pattern, cb))
  {
    if Accepts(mux, pattern, cb) {
      var after := Registered(mux, pattern, cb);
      forall k | k in after ensures EntryOk(after, k) { RegisteredEntryOk(mux, pattern, cb, k); }
    }
  }

  lemma RegisteredEntryOk(mux: Mux, pattern: string, cb: Callback, k: string)
    requires WellFormed(mux) && PlainPattern(pattern) && Accepts(mux, pattern, cb) && k in Registered(mux, pattern, cb)
    ensures EntryOk(Registered(mux, pattern, cb), k)
  {
    var after := Registered(mux, pattern, cb);
    RegisteredKeys(mux, pattern, cb, k);
    UserEntriesStay(mux, pattern, cb);
    if |pattern| >= 2 && EndsInSlash(pattern) { SubtreeInstalled(mux, pattern, cb); }
    if k in mux && after[k] == mux[k] { KeptEntryOk(mux, after, k); }
  }

  lemma {:induction false} BuildWellFormed(calls: seq<Call>)
    requires forall c | c in calls :: PlainPattern(c.pattern)
    ensures WellFormed(Build(calls))
  {
    if calls != [] {
      var front, last := calls[..|calls| - 1], calls[|calls| - 1];
      BuildWellFormed(front);
      RegisteredWellFormed(Build(front), last.pattern, last.cb);
    }
  }

  // ---------------------------------------------------------------- implicit trailing-slash redirects

  /** When the selected entry is implicit, its Location is the request path with a slash added. */
  lemma ImplicitLocation(mux: Mux, host: string, path: string)
    requires WellFormed(mux) && '/' !in host && Absolute(path)
    requires var key := Select(mux, host, path); key.Some? && !mux[key.value].userDefined
    ensures var k := Select(mux, host, path).value;
            && (k == host + path || k == path)
            && mux[k].pattern == k + "/"
            && mux[k].cb == RedirectTo(301, path + "/")
            && PlainPattern(k + "/") && !EndsInSlash(path)
  {
    var k := Select(mux, host, path).value;
    assert ImplicitOk(mux, k);
    ImplicitKeyShape(k);
    assert k == host + path || k == path;
    if k == path {
      assert k == "" + path;
      PathOfPattern("", path);
    } else {
      PathOfPattern(host, path);
    }
  }

  lemma PathOfPattern(host: string, path: string)
    requires '/' !in host && Absolute(path)
    ensures var pattern := host + path + "/"; Find(pattern, '/') == |host| && pattern[|host|..] == path + "/"
  {
    var pattern := host + path + "/";
    forall j | 0 <= j < |host| ensures pattern[j] != '/' { assert pattern[j] == host[j]; }
    FindUnique(pattern, '/', |host|);
    assert pattern[|host|..] == path + "/";
  }

  lemma SlashAddedIsNormal(path: string)
    requires Normal(path) && !EndsInSlash(path)
    ensures Normal(path + "/")
  {
    NoSlashRunConcat(path, "/");
    assert path + "/" == path + "/" + "";
    DotFreeConcat(path, "");
    DotFreePlain("");
  }

  /** A user-defined key that is the whole of s is what s selects. */
  lemma WholeKeySelected(mux: Mux, s: string)
    requires s in mux && s != ""
    ensures Longest(mux, s, |s|) == Some(s)
  {
    assert s[..|s|] == s;
  }

  /** A key that matches s + "/" comes with a key that matches s, for a well-formed mux. */
  lemma MatchUnderSlash(mux: Mux, s: string, q: string)
    requires WellFormed(mux) && s != "" && q in mux && PathMatch(q, s + "/")
    ensures Longest(mux, s, |s|).Some?
  {
    MatchSlashed(q, s);
    if q == s + "/" {
      WholeKeyUnderSlash(mux, s);
    } else {
      LongestBounds(mux, s, |s|, q);
    }
  }

  lemma MatchSlashed(q: string, s: string)
    requires q != "" && PathMatch(q, s + "/")
    ensures q == s + "/" || (PathMatch(q, s) && |q| <= |s|)
  {
    MatchIsPrefix(q, s + "/");
    if |q| <= |s| {
      assert (s + "/")[..|q|] == s[..|q|];
    } else {
      assert (s + "/")[..|s| + 1] == s + "/";
    }
  }

  lemma WholeKeyUnderSlash(mux: Mux, s: string)
    requires WellFormed(mux) && s != "" && s + "/" in mux
    ensures Longest(mux, s, |s|).Some?
  {
    var q := s + "/";
    if mux[q].userDefined {
      assert UserOk(mux, q);
      assert q[..|q| - 1] == s;
      WholeKeySelected(mux, s);
    } else {
      assert ImplicitOk(mux, q);
      ImplicitKeyShape(q);
      assert false;
    }
  }

  /** If nothing matched s, nothing matches s + "/" either. */
  lemma NothingUnderSlash(mux: Mux, s: string)
    requires WellFormed(mux) && s != "" && Longest(mux, s, |s|).None?
    ensures Longest(mux, s + "/", |s + "/"|).None?
  {
    var key := Longest(mux, s + "/", |s + "/"|);
    if key.Some? { MatchUnderSlash(mux, s, key.value); }
  }

  /** Entries of a well-formed mux have callbacks, so Select is the first of its two lookups that finds a key. */
  lemma SelectSimply(mux: Mux, host: string, path: string)
    requires WellFormed(mux)
    ensures var specific := Longest(mux, host + path, |host + path|);
            Select(mux, host, path) == if specific.Some? then specific else Longest(mux, path, |path|)
  {
    var key := Longest(mux, host + path, |host + path|);
    if key.Some? {
      assert EntryOk(mux, key.value);
    }
  }

  lemma SelectUnderSlash(mux: Mux, host: string, path: string, k: string)
    requires WellFormed(mux) && '/' !in host && Absolute(path) && Select(mux, host, path) == Some(k)
    requires k == host + path || k == path
    requires k + "/" in mux
    ensures Select(mux, host, path + "/") == Some(k + "/")
  {
    SelectSimply(mux, host, path);
    SelectSimply(mux, host, path + "/");
    assert host + (path + "/") == host + path + "/";
    WholeKeySelected(mux, k + "/");
    if k != host + path {
      if Longest(mux, host + path, |host + path|).Some? {
        MatchIsPrefix(path, host + path);
        assert false;
      }
      NothingUnderSlash(mux, host + path);
    }
  }

  /** Following an implicit redirect reaches, in one hop, the user-defined entry it was made for. */
  lemma ImplicitRedirectOneHop(calls: seq<Call>, host: string, path: string)
    requires forall c | c in calls :: PlainPattern(c.pattern)
    requires '/' !in host && Normal(path)
    requires var key := Select(Build(calls), host, path); key.Some? && !Build(calls)[key.value].userDefined
    ensures var mux := Build(calls);
            var ent := mux[Select(mux, host, path).value];
            && ent.cb.RedirectTo?
            && var path' := Decode(PathPart(ent.cb.uri));
            && Normal(path')
            && Select(mux, host, path') == Some(ent.pattern)
            && mux[ent.pattern].userDefined
  {
    var mux := Build(calls);
    BuildWellFormed(calls);
    ImplicitLocation(mux, host, path);
    var k := Select(mux, host, path).value;
    assert ImplicitOk(mux, k);
    SlashTarget(host, path, k);
    SlashAddedIsNormal(path);
    SelectUnderSlash(mux, host, path, k);
  }

  /** A plain Location is read back as it was written. */
  lemma SlashTarget(host: string, path: string, k: string)
    requires k != "" && PlainPattern(k + "/") && (k == host + path || k == path)
    ensures Requested(path + "/") == Target(path + "/", "")
  {
    var target := path + "/";
    assert forall c | c in target :: c in k + "/";
    SplitAtQuery(target, "");
    DecodePlain(target);
  }

  // ---------------------------------------------------------------- redirects composed

  /** The request is answered by a user-defined entry or with 404, and not with a redirect of the library's own. */
  predicate Served(mux: Mux, host: string, t: Target) {
    Normal(t.path) && var key := Select(mux, host, t.path); key.Some? ==> mux[key.value].userDefined
  }

  /**
    The target a client requests next, if it follows the Location of the library's own redirects. A Location that starts
    with two slashes is a network-path reference (section 4.2 of RFC 3986): it names another host, so there is none. The
    fragment of a Location is not sent.
  */
  function Follow(mux: Mux, host: string, t: Target): Option<Target>
    requires IsBytes(t.path)
  {
    var cb := Route(mux, false, host, t.path, t.rawQuery);
    if Served(mux, host, t) || !cb.RedirectTo? then Some(t)
    else if StartsWith(cb.uri, "//") then None
    else Some(Requested(Sent(cb.uri)))
  }

  /** A reference without its fragment */
  function Sent(uri: string): string {
    uri[..Find(uri, '#')]
  }

  predicate OnBytes(t: Option<Target>) {
    t.Some? ==> IsBytes(t.value.path)
  }

  function FollowOn(mux: Mux, host: string, t: Option<Target>): Option<Target>
    requires OnBytes(t)
  {
    if t.None? then None else Follow(mux, host, t.value)
  }

  lemma SentOfConcat(a: string, b: string)
    requires '#' !in a
    ensures Sent(a + b) == a + Sent(b)
  {
    var s, k := a + b, |a| + Find(b, '#');
    forall j | 0 <= j < k ensures s[j] != '#' { assert s[j] == if j < |a| then a[j] else b[j - |a|]; }
    FindUnique(s, '#', k);
  }

  lemma SentPlain(a: string)
    ensures Sent(a) == a <==> '#' !in a
  {
    if '#' !in a { FindUnique(a, '#', |a|); }
    assert |Sent(a)| == Find(a, '#');
  }

  lemma SentTwice(a: string)
    ensures Sent(Sent(a)) == Sent(a)
  {
    FindUnique(Sent(a), '#', |Sent(a)|);
  }

  /** What a client asks for when it follows a normalising redirect. */
  lemma SentLocation(path: string, rawQuery: string)
    requires IsBytes(path)
    ensures Requested(Sent(Location(path, rawQuery))) == Target(path, Sent(rawQuery))
  {
    assert '#' !in Encode(path) && '?' !in Encode(path) by { EncodeAlphabet(path); }
    SentQuery(Encode(path), rawQuery);
    DecodeEncode(path);
  }

  lemma SentQuery(enc: string, rawQuery: string)
    requires '#' !in enc && '?' !in enc
    ensures PathPart(Sent(WithQuery(enc, rawQuery))) == enc && QueryPart(Sent(WithQuery(enc, rawQuery))) == Sent(rawQuery)
  {
    SplitAtQuery(enc, Sent(rawQuery));
    if rawQuery == "" {
      SentPlain(enc);
    } else {
      SentOfConcat(enc + "?", rawQuery);
    }
  }

  lemma EncodeFirst(s: string)
    requires IsBytes(s) && s != ""
    ensures Encode(s) != "" && (Encode(s)[0] == '/' <==> s[0] == '/')
    ensures s[0] == '/' ==> Encode(s) == "/" + Encode(s[1..])
  {
  }

  /** Encoding neither makes nor hides two leading slashes. */
  lemma LocationDoubleSlash(path: string, rawQuery: string)
    requires IsBytes(path)
    ensures StartsWith(Location(path, rawQuery), "//") <==> StartsWith(path, "//")
  {
    if path != "" {
      EncodeFirst(path);
      if path[0] == '/' && path[1..] != "" { EncodeFirst(path[1..]); }
    }
    TwoSlashes(path);
    TwoSlashes(Location(path, rawQuery));
  }

  lemma TwoSlashes(s: string)
    ensures StartsWith(s, "//") <==> |s| >= 2 && s[0] == '/' && s[1] == '/'
  {
    if |s| >= 2 { assert s[..2] == [s[0], s[1]]; }
  }

  /** The Location of a normalising redirect names another host exactly if the path leaves an empty segment first. */
  lemma LocationLeavesHost(path: string, rawQuery: string)
    requires IsBytes(path)
    ensures IsBytes(Clean(path)) && (StartsWith(Location(Clean(path), rawQuery), "//") <==> LeavesEmptyFirst(path))
  {
    CleanBytes(path);
    LocationDoubleSlash(Clean(path), rawQuery);
    CleanLeavesRunFirst(path);
  }

  /** A normal path leaves none. */
  lemma NormalStays(path: string)
    requires Normal(path)
    ensures !LeavesEmptyFirst(path)
  {
    CleanFixpoint(path);
    CleanLeavesRunFirst(path);
    TwoSlashes(path);
    assert !RunAt(path, 0);
  }

  lemma ServedRoute(mux: Mux, host: string, t: Target)
    requires WellFormed(mux) && IsBytes(t.path) && Served(mux, host, t)
    ensures var key := Select(mux, host, t.path);
            Route(mux, false, host, t.path, t.rawQuery) == if key.Some? then mux[key.value].cb else StatusPage(404)
  {
    CleanFixpoint(t.path);
    var key := Select(mux, host, t.path);
    if key.Some? { assert EntryOk(mux, key.value); }
  }

  /** A normalising redirect keeps the query up to a fragment, and the host unless the path leaves an empty segment first. */
  lemma FollowNormalises(mux: Mux, host: string, t: Target)
    requires IsBytes(t.path) && !Normal(t.path)
    ensures Follow(mux, host, t)
         == if LeavesEmptyFirst(t.path) then None else Some(Target(Clean(t.path), Sent(t.rawQuery)))
    ensures IsBytes(Clean(t.path))
  {
    LocationLeavesHost(t.path, t.rawQuery);
    SentLocation(Clean(t.path), t.rawQuery);
    CleanFixpoint(t.path);
  }

  /** An implicit redirect drops the query, and its Location names a served target, which a '#' in the path cuts off. */
  lemma FollowImplicit(mux: Mux, host: string, t: Target)
    requires WellFormed(mux) && '/' !in host && IsBytes(t.path) && Normal(t.path) && !Served(mux, host, t)
    ensures var next := Target(t.path + "/", "");
            && Follow(mux, host, t) == Some(Target(Sent(t.path + "/"), ""))
            && (Follow(mux, host, t) == Some(next) <==> '#' !in t.path)
            && IsBytes(next.path) && Served(mux, host, next)
  {
    var path := t.path;
    ImplicitLocation(mux, host, path);
    var k := Select(mux, host, path).value;
    assert EntryOk(mux, k);
    assert Route(mux, false, host, path, t.rawQuery) == RedirectTo(301, path + "/") by { CleanFixpoint(path); }
    assert !StartsWith(path + "/", "//") by {
      TwoSlashes(path + "/");
      assert !RunAt(path, 0);
    }
    SlashSent(host, path, k);
    SlashAddedIsNormal(path);
    SelectUnderSlash(mux, host, path, k);
  }

  lemma SlashSent(host: string, path: string, k: string)
    requires k != "" && PlainPattern(k + "/") && (k == host + path || k == path)
    ensures Requested(Sent(path + "/")) == Target(Sent(path + "/"), "")
    ensures Sent(path + "/") == path + "/" <==> '#' !in path
  {
    var target := path + "/";
    assert forall c | c in target :: c in k + "/";
    assert forall c | c in Sent(target) :: c in target;
    SplitAtQuery(Sent(target), "");
    DecodePlain(Sent(target));
    SentPlain(target);
    assert '#' in target <==> '#' in path;
  }

  /** Where following redirects ends: at the normal form of the path, or at the subtree below it with the query lost. */
  function Destination(mux: Mux, host: string, t: Target): Target {
    var path := Clean(Clean(t.path));
    if !Served(mux, host, Target(path, t.rawQuery)) then Target(path + "/", "")
    else Target(path, if Normal(t.path) then t.rawQuery else Sent(t.rawQuery))
  }

  /** No key that redirects holds a '#', which would cut its Location off. */
  predicate NoFragments(mux: Mux) {
    forall k | k in mux && !mux[k].userDefined :: '#' !in k
  }

  predicate NoFragmentPattern(pattern: string) {
    |pattern| >= 2 && EndsInSlash(pattern) ==> '#' !in pattern
  }

  lemma BuildNoFragments(calls: seq<Call>)
    requires forall c | c in calls :: NoFragmentPattern(c.pattern)
    ensures NoFragments(Build(calls))
  {
    forall k | k in Build(calls) && !Build(calls)[k].userDefined ensures '#' !in k {
      var i := ImplicitFrom(calls, k);
      assert calls[i] in calls && NoFragmentPattern(k + "/");
      assert forall c | c in k :: c in k + "/";
      BuildCallable(calls);
    }
  }

  /** From a normal path one hop suffices. */
  lemma FollowFromNormal(mux: Mux, host: string, t: Target)
    requires WellFormed(mux) && NoFragments(mux) && '/' !in host && IsBytes(t.path) && Normal(t.path)
    ensures var d := Destination(mux, host, t);
            Follow(mux, host, t) == Some(d) && IsBytes(d.path) && Served(mux, host, d) && Follow(mux, host, d) == Some(d)
  {
    CleanFixpoint(t.path);
    assert Target(t.path, t.rawQuery) == t;
    if !Served(mux, host, t) {
      FollowImplicit(mux, host, t);
      ImplicitLocation(mux, host, t.path);
    }
  }

  lemma DestinationOfClean(mux: Mux, host: string, t: Target)
    requires !Normal(t.path)
    ensures Destination(mux, host, Target(Clean(t.path), Sent(t.rawQuery))) == Destination(mux, host, t)
  {
    CleanThriceIsTwice(t.path);
    SentTwice(t.rawQuery);
  }

  /** From a path that is normal or becomes so, two. */
  lemma TwoHops(mux: Mux, host: string, t: Target)
    requires WellFormed(mux) && NoFragments(mux) && '/' !in host && IsBytes(t.path) && (Normal(t.path) || Normal(Clean(t.path)))
    requires !LeavesEmptyFirst(t.path)
    ensures var t1, d := Follow(mux, host, t), Destination(mux, host, t);
            && OnBytes(t1) && FollowOn(mux, host, t1) == Some(d)
            && IsBytes(d.path) && Served(mux, host, d) && Follow(mux, host, d) == Some(d)
  {
    if Normal(t.path) {
      FollowFromNormal(mux, host, t);
    } else {
      FollowNormalises(mux, host, t);
      DestinationOfClean(mux, host, t);
      FollowFromNormal(mux, host, Target(Clean(t.path), Sent(t.rawQuery)));
    }
  }

  /** After one cleaning no empty segment is left first by the next, so only the first hop can lead away. */
  lemma CleanedStays(path: string)
    ensures !LeavesEmptyFirst(Clean(path)) && Normal(Clean(Clean(path)))
  {
    CleanTwiceNormal(path);
    CleanLeavesRunFirst(Clean(path));
    TwoSlashes(Clean(Clean(path)));
    assert !RunAt(Clean(Clean(path)), 0);
  }

  lemma ThreeHops(mux: Mux, host: string, t: Target)
    requires WellFormed(mux) && NoFragments(mux) && '/' !in host && IsBytes(t.path) && !LeavesEmptyFirst(t.path)
    ensures var t1, d := Follow(mux, host, t), Destination(mux, host, t);
            OnBytes(t1) &&
            var t2 := FollowOn(mux, host, t1);
            && OnBytes(t2) && FollowOn(mux, host, t2) == Some(d)
            && IsBytes(d.path) && Served(mux, host, d) && Follow(mux, host, d) == Some(d)
  {
    if Normal(t.path) {
      FollowFromNormal(mux, host, t);
    } else {
      FollowNormalises(mux, host, t);
      DestinationOfClean(mux, host, t);
      CleanedStays(t.path);
      TwoHops(mux, host, Target(Clean(t.path), Sent(t.rawQuery)));
    }
  }

  /** A path that leaves an empty segment first sends the client to another host at once. */
  lemma LedAway(mux: Mux, host: string, t: Target)
    requires IsBytes(t.path) && LeavesEmptyFirst(t.path)
    ensures Follow(mux, host, t) == None
  {
    if Normal(t.path) {
      NormalStays(t.path);
      assert false;
    }
    FollowNormalises(mux, host, t);
  }

  /**
    Cleaning, encoding, decoding and matching composed, for a map built from plain patterns and a host without slash:
    following redirects from any target reaches its destination, after at most three hops, if and only if the path does
    not leave an empty segment first; and there the request is answered by a user-defined entry or with 404.
  */
  lemma RedirectsReachDestination(calls: seq<Call>, host: string, t: Target)
    requires forall c | c in calls :: PlainPattern(c.pattern) && NoFragmentPattern(c.pattern)
    requires '/' !in host && IsBytes(t.path)
    ensures var mux, d := Build(calls), Destination(Build(calls), host, t);
            var t1 := Follow(mux, host, t);
            OnBytes(t1) &&
            var t2 := FollowOn(mux, host, t1);
            && OnBytes(t2)
            && FollowOn(mux, host, t2) == (if LeavesEmptyFirst(t.path) then None else Some(d))
            && (!LeavesEmptyFirst(t.path) ==>
                  && IsBytes(d.path) && Served(mux, host, d) && Follow(mux, host, d) == Some(d)
                  && var key := Select(mux, host, d.path);
                     Route(mux, false, host, d.path, d.rawQuery)
                     == if key.Some? then mux[key.value].cb else StatusPage(404))
  {
    var mux := Build(calls);
    BuildWellFormed(calls);
    BuildNoFragments(calls);
    if LeavesEmptyFirst(t.path) {
      LedAway(mux, host, t);
    } else {
      ThreeHops(mux, host, t);
      ServedRoute(mux, host, Destination(mux, host, t));
    }
  }
}
