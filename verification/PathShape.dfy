/** The shape of cleaned paths: which paths path_join can return, and which it returns unchanged. */
module PathShape {
  import opened Text
  import opened PathClean

  /** No segment of s is "." or "..". */
  predicate DotFree(s: string) {
    forall seg | seg in Split(s) :: !IsDotSegment(seg)
  }

  /** What path_join leaves alone. */
  predicate Normal(path: string) {
    Absolute(path) && DotFree(path) && NoSlashRun(path)
  }

  /** Absolute or empty: the RFC's output buffer. */
  predicate Rooted(o: string) {
    o == "" || o[0] == '/'
  }

  // ---------------------------------------------------------------- segments

  lemma DotFreeConcat(a: string, b: string)
    ensures DotFree(a + "/" + b) <==> DotFree(a) && DotFree(b)
  {
    SplitConcat(a, b);
    assert forall seg :: seg in Split(a) + Split(b) <==> seg in Split(a) || seg in Split(b);
  }

  lemma DotFreePlain(seg: string)
    requires '/' !in seg
    ensures DotFree(seg) <==> !IsDotSegment(seg)
  {
    SplitPlain(seg);
  }

  /** A path is its first segment, or that segment, a slash and the rest. */
  lemma FirstThenRest(rel: string)
    ensures var k := Find(rel, '/');
            && (k == |rel| ==> rel[..k] == rel)
            && (k < |rel| ==> rel == rel[..k] + "/" + Rest(rel))
  {
    var k := Find(rel, '/');
    if k < |rel| { CutAt(rel, k); }
  }

  lemma CutAt(s: string, k: nat)
    requires k < |s|
    ensures s == s[..k] + [s[k]] + s[k + 1..]
  {
  }

  lemma DotFreeFirstThenRest(rel: string)
    ensures var k := Find(rel, '/'); DotFree(rel) <==> !IsDotSegment(rel[..k]) && DotFree(Rest(rel))
  {
    var k := Find(rel, '/');
    FirstThenRest(rel);
    DotFreePlain(rel[..k]);
    DotFreePlain("");
    if k < |rel| { DotFreeConcat(rel[..k], Rest(rel)); }
  }

  lemma {:induction false} DotFreeSkipSlashes(s: string)
    requires DotFree(s)
    ensures DotFree(SkipSlashes(s))
  {
    if s != "" && s[0] == '/' {
      assert s == "" + "/" + s[1..];
      DotFreeConcat("", s[1..]);
      DotFreeSkipSlashes(s[1..]);
    }
  }

  lemma {:induction false} LastSegment(o: string) returns (seg: string)
    ensures '/' !in seg
    ensures o == RemoveLast(o) + "/" + seg || (o == seg && RemoveLast(o) == "")
  {
    if o == "" {
      seg := "";
    } else {
      var front := o[..|o| - 1];
      assert o == front + [o[|o| - 1]];
      if o[|o| - 1] == '/' {
        seg := "";
      } else {
        var seg' := LastSegment(front);
        seg := seg' + [o[|o| - 1]];
        assert RemoveLast(o) == RemoveLast(front);
        assert front == RemoveLast(o) + "/" + seg' ==> o == RemoveLast(o) + "/" + seg;
      }
    }
  }

  lemma RemoveLastKeeps(o: string)
    requires DotFree(o) && Rooted(o)
    ensures DotFree(RemoveLast(o)) && Rooted(RemoveLast(o))
  {
    var seg := LastSegment(o);
    DotFreePlain("");
    if o == RemoveLast(o) + "/" + seg {
      DotFreeConcat(RemoveLast(o), seg);
      assert RemoveLast(o) != "" ==> RemoveLast(o)[0] == o[0];
    }
  }

  // ---------------------------------------------------------------- every output is absolute and dot-free

  lemma {:induction false} WalkShape(o: string, rel: string)
    requires DotFree(o) && Rooted(o)
    ensures DotFree(Walk(o + "/", rel)) && Absolute(Walk(o + "/", rel))
    decreases |rel|
  {
    var k := Find(rel, '/');
    DotFreePlain("");
    DotFreeConcat(o, "");
    assert o + "/" + "" == o + "/";
    if rel == "" {
    } else if IsDotSegment(rel[..k]) {
      WalkDot(o, rel);
      RemoveLastKeeps(o);
      WalkShape(if IsDot(rel[..k]) then o else RemoveLast(o), Rest(rel));
    } else {
      WalkOrdinary(o, rel);
      FirstThenRest(rel);
      DotFreePlain(rel[..k]);
      DotFreeConcat(o, rel[..k]);
      if k < |rel| { WalkShape(o + "/" + rel[..k], SkipSlashes(Rest(rel))); }
    }
  }

  lemma CleanShape(path: string)
    ensures Absolute(Clean(path)) && DotFree(Clean(path))
  {
    CleanIsWalk(path);
    DotFreePlain("");
    assert "" + "/" == "/";
    WalkShape("", Body(path));
  }

  // ---------------------------------------------------------------- slash runs

  lemma NoSlashRunConcat(a: string, b: string)
    requires NoSlashRun(a) && NoSlashRun(b)
    requires a != "" && b != "" ==> a[|a| - 1] != '/' || b[0] != '/'
    ensures NoSlashRun(a + b)
  {
    var s := a + b;
    forall i: nat | i < |s| ensures !RunAt(s, i) {
      if i < |a| {
        assert !RunAt(a, i);
      } else {
        assert !RunAt(b, i - |a|);
      }
    }
  }

  lemma NoSlashRunPlain(s: string)
    requires '/' !in s
    ensures NoSlashRun(s)
  {
  }

  /** No slash run follows a dot segment, in what the loop reads. */
  predicate RunFree(rel: string)
    decreases |rel|
  {
    var k := Find(rel, '/');
    k == |rel| ||
    if IsDotSegment(rel[..k]) then !Absolute(Rest(rel)) && RunFree(Rest(rel)) else RunFree(SkipSlashes(Rest(rel)))
  }

  lemma {:induction false} DotFreeIsRunFree(rel: string)
    requires DotFree(rel)
    ensures RunFree(rel)
    decreases |rel|
  {
    if Find(rel, '/') < |rel| {
      DotFreeFirstThenRest(rel);
      DotFreeSkipSlashes(Rest(rel));
      DotFreeIsRunFree(SkipSlashes(Rest(rel)));
    }
  }

  lemma {:induction false} NoSlashRunIsRunFree(rel: string)
    requires NoSlashRun(rel)
    ensures RunFree(rel)
    decreases |rel|
  {
    if Find(rel, '/') < |rel| {
      NoSlashRunRest(rel);
      NoSlashRunIsRunFree(Rest(rel));
    }
  }

  lemma RemoveLastNoSlashRun(o: string)
    requires NoSlashRun(o + "/")
    ensures NoSlashRun(RemoveLast(o) + "/")
  {
    var seg := LastSegment(o);
    var up := RemoveLast(o) + "/";
    if o == up + seg {
      assert (o + "/")[0..|up|] == up;
      NoSlashRunSlice(o + "/", 0, |up|);
    }
  }

  /** The loop never writes a slash run unless it reads one after a dot segment. */
  lemma {:induction false} WalkNoSlashRun(o: string, rel: string)
    requires RunFree(rel) && NoSlashRun(o + "/")
    requires rel == "" || rel[0] != '/'
    ensures NoSlashRun(Walk(o + "/", rel))
    decreases |rel|
  {
    var k := Find(rel, '/');
    var seg := rel[..k];
    if rel == "" {
    } else if IsDotSegment(seg) {
      WalkDot(o, rel);
      RemoveLastNoSlashRun(o);
      WalkNoSlashRun(if IsDot(seg) then o else RemoveLast(o), Rest(rel));
    } else {
      WalkOrdinary(o, rel);
      FirstThenRest(rel);
      NoSlashRunPlain(seg);
      NoSlashRunConcat(o + "/", seg);
      if k < |rel| {
        NoSlashRunConcat(o + "/" + seg, "/");
        WalkNoSlashRun(o + "/" + seg, SkipSlashes(Rest(rel)));
      }
    }
  }

  lemma BodyOfDotFree(path: string)
    requires Absolute(path) && DotFree(path)
    ensures DotFree(Body(path)) && (Body(path) == "" || Body(path)[0] != '/')
  {
    assert path == "" + "/" + path[1..];
    DotFreeConcat("", path[1..]);
    DotFreeSkipSlashes(path[1..]);
  }

  lemma CleanOfDotFree(path: string)
    requires Absolute(path) && DotFree(path)
    ensures NoSlashRun(Clean(path))
  {
    CleanIsWalk(path);
    BodyOfDotFree(path);
    DotFreeIsRunFree(Body(path));
    assert "" + "/" == "/";
    WalkNoSlashRun("", Body(path));
  }

  /** s without the slashes that follow a slash; after says whether one precedes s. */
  function Dedup(s: string, after: bool): string {
    if s == "" then ""
    else if s[0] == '/' && after then Dedup(s[1..], true)
    else [s[0]] + Dedup(s[1..], s[0] == '/')
  }

  lemma {:induction false} DedupSegment(seg: string, t: string, after: bool)
    requires '/' !in seg
    ensures Dedup(seg + t, after) == seg + Dedup(t, after && seg == "")
  {
    if seg == "" {
      assert seg + t == t;
    } else {
      var s := seg + t;
      assert s[0] == seg[0] && seg[0] in seg && s[1..] == seg[1..] + t;
      DedupSegment(seg[1..], t, false);
    }
  }

  lemma {:induction false} DedupSkips(s: string)
    ensures Dedup(SkipSlashes(s), true) == Dedup(s, true)
  {
    if s != "" && s[0] == '/' { DedupSkips(s[1..]); }
  }

  lemma {:induction false} WalkDedups(o: string, rel: string)
    requires DotFree(rel) && (rel == "" || rel[0] != '/')
    ensures Walk(o + "/", rel) == o + "/" + Dedup(rel, true)
    decreases |rel|
  {
    var k := Find(rel, '/');
    if rel == "" {
      assert o + "/" + "" == o + "/";
    } else if k == |rel| {
      DotFreeFirstThenRest(rel);
      WalkOrdinary(o, rel);
      DedupSegment(rel, "", true);
      assert rel + "" == rel;
    } else {
      DotFreeFirstThenRest(rel);
      var o', rest := o + "/" + rel[..k], SkipSlashes(Rest(rel));
      assert Walk(o + "/", rel) == Walk(o' + "/", rest) by { WalkOrdinary(o, rel); }
      DotFreeSkipSlashes(Rest(rel));
      WalkDedups(o', rest);
      CutFirst(rel);
      DedupStep(o, rel[..k], Rest(rel));
    }
  }

  lemma DedupStep(o: string, seg: string, rest: string)
    requires seg != "" && '/' !in seg
    ensures o + "/" + Dedup(seg + ("/" + rest), true) == o + "/" + seg + "/" + Dedup(SkipSlashes(rest), true)
  {
    DedupRest(seg, rest);
    AfterDirectory(o, seg, Dedup(rest, true));
  }

  /** A path taken apart at its first slash. */
  lemma CutFirst(rel: string)
    requires Find(rel, '/') < |rel|
    ensures var seg := rel[..Find(rel, '/')]; '/' !in seg && rel == seg + ("/" + Rest(rel))
  {
    var k := Find(rel, '/');
    CutBefore(rel, k);
    forall c | c in rel[..k] ensures c != '/' {
      var j :| 0 <= j < k && rel[..k][j] == c;
      assert rel[j] == c;
    }
  }

  lemma CutBefore(s: string, k: nat)
    requires k < |s| && s[k] == '/'
    ensures s == s[..k] + ("/" + s[k + 1..])
  {
  }

  lemma AfterDirectory(o: string, seg: string, d: string)
    ensures o + "/" + (seg + ("/" + d)) == o + "/" + seg + "/" + d
  {
  }

  lemma DedupRest(seg: string, rest: string)
    requires seg != "" && '/' !in seg
    ensures Dedup(seg + ("/" + rest), true) == seg + ("/" + Dedup(rest, true))
    ensures Dedup(SkipSlashes(rest), true) == Dedup(rest, true)
  {
    DedupSegment(seg, "/" + rest, true);
    assert ("/" + rest)[1..] == rest;
    DedupSkips(rest);
  }

  /** A path without dot segments is cleaned by making it absolute and dropping every slash that follows a slash. */
  lemma CleanDedups(path: string)
    requires DotFree(path)
    ensures Clean(path) == Dedup("/" + path, false)
  {
    CleanIsWalk(path);
    assert ("/" + path)[1..] == path && "" + "/" == "/";
    if Absolute(path) {
      BodyOfDotFree(path);
      DedupSkips(path[1..]);
    }
    WalkDedups("", Body(path));
  }

  /** Without dot segments or slash runs to read, the loop copies. */
  lemma {:induction false} WalkCopies(o: string, rel: string)
    requires DotFree(rel) && NoSlashRun(rel)
    ensures Walk(o + "/", rel) == o + "/" + rel
    decreases |rel|
  {
    if rel == "" {
      assert o + "/" + "" == o + "/";
    } else {
      var k := Find(rel, '/');
      DotFreeFirstThenRest(rel);
      WalkOrdinary(o, rel);
      if k < |rel| {
        NoSlashRunRest(rel);
        WalkCopies(o + "/" + rel[..k], Rest(rel));
        CopyStep(o + "/", rel);
      }
    }
  }

  lemma CopyStep(o: string, rel: string)
    requires Find(rel, '/') < |rel|
    ensures o + rel[..Find(rel, '/')] + "/" + Rest(rel) == o + rel
  {
    FirstThenRest(rel);
    Assoc4(o, rel[..Find(rel, '/')], "/", Rest(rel));
  }

  /** path_join returns a path unchanged exactly when it is absolute and free of dot segments and slash runs. */
  lemma CleanFixpoint(path: string)
    ensures Clean(path) == path <==> Normal(path)
  {
    CleanShape(path);
    if Normal(path) {
      CleanIsWalk(path);
      assert path == "/" + path[1..];
      assert path == "" + "/" + path[1..];
      DotFreeConcat("", path[1..]);
      assert !RunAt(path, 0);
      NoSlashRunSlice(path, 1, |path|);
      assert path[1..|path|] == path[1..];
      assert "" + "/" == "/";
      WalkCopies("", path[1..]);
    }
    if Clean(path) == path {
      CleanOfDotFree(path);
    }
  }

  /** Cleaning a cleaned path always reaches the fixpoint. */
  lemma CleanTwiceNormal(path: string)
    ensures Normal(Clean(Clean(path)))
  {
    CleanShape(path);
    CleanShape(Clean(path));
    CleanOfDotFree(Clean(path));
  }

  lemma CleanThriceIsTwice(path: string)
    ensures Clean(Clean(Clean(path))) == Clean(Clean(path))
  {
    CleanTwiceNormal(path);
    CleanFixpoint(Clean(Clean(path)));
  }

  /**
    What reading rel leaves of the segments written before its last slash: of each, whether it is empty. marks says so of
    the segments written so far; "." writes nothing, ".." takes the last segment back, and a segment is empty if it ends
    where it starts.
  */
  function EndMarks(rel: string, marks: seq<bool>): seq<bool>
    decreases |rel|
  {
    var k := Find(rel, '/');
    if rel == "" then marks
    else if IsDotSegment(rel[..k]) then EndMarks(Rest(rel), if IsDot(rel[..k]) then marks else DropLast(marks))
    else if k == |rel| then marks
    else EndMarks(SkipSlashes(Rest(rel)), marks + [k == 0])
  }

  /** Reading the path leaves an empty segment: a test of the input alone. */
  predicate LeavesEmpty(path: string) {
    true in EndMarks(Body(path), [])
  }

  /** Reading the path leaves an empty segment in the first place. */
  predicate LeavesEmptyFirst(path: string) {
    var marks := EndMarks(Body(path), []);
    marks != [] && marks[0]
  }

  function DropLast(marks: seq<bool>): seq<bool> {
    if marks == [] then [] else marks[..|marks| - 1]
  }

  /** The marks of an output. */
  function Marks(o: string): seq<bool>
    decreases |o|
  {
    if o == "" then [] else Marks(RemoveLast(o)) + [o[|o| - 1] == '/']
  }

  lemma NoSlashRunSuffix(a: string, seg: string)
    requires a != "" && a[|a| - 1] == '/' && '/' !in seg
    ensures NoSlashRun(a + seg) <==> NoSlashRun(a)
  {
    if NoSlashRun(a) {
      NoSlashRunPlain(seg);
      NoSlashRunConcat(a, seg);
    }
    if NoSlashRun(a + seg) {
      NoSlashRunSlice(a + seg, 0, |a|);
      assert (a + seg)[0..|a|] == a;
    }
  }

  lemma NoSlashRunSlashed(a: string, seg: string)
    requires a != "" && a[|a| - 1] == '/' && '/' !in seg
    ensures NoSlashRun(a + seg + "/") <==> NoSlashRun(a) && seg != ""
  {
    NoSlashRunSuffix(a, seg);
    var s := a + seg + "/";
    if seg == "" {
      assert RunAt(s, |a| - 1);
    } else {
      if NoSlashRun(a) {
        assert (a + seg)[|a + seg| - 1] == seg[|seg| - 1];
        NoSlashRunConcat(a + seg, "/");
      }
      if NoSlashRun(s) {
        NoSlashRunSlice(s, 0, |a + seg|);
        assert s[0..|a + seg|] == a + seg;
      }
    }
  }

  /** An output and the slash after it hold a slash run exactly if some segment is empty. */
  lemma {:induction false} MarksMeaning(o: string)
    requires Rooted(o)
    ensures NoSlashRun(o + "/") <==> true !in Marks(o)
    decreases |o|
  {
    if o != "" {
      var seg := LastSegment(o);
      RootedLast(o, RemoveLast(o), seg);
      var up := RemoveLast(o);
      MarksMeaning(up);
      NoSlashRunSlashed(up + "/", seg);
      assert up + "/" + seg + "/" == o + "/";
    }
  }

  lemma RootedLast(o: string, up: string, seg: string)
    requires o != "" && Rooted(o) && '/' !in seg && (o == up + "/" + seg || (o == seg && up == ""))
    ensures o == up + "/" + seg && Rooted(up) && (o[|o| - 1] == '/' <==> seg == "")
  {
    assert o[0] == '/' && (seg != "" ==> seg[0] in seg && seg[|seg| - 1] in seg);
    assert o == up + "/" + seg;
    assert up != "" ==> up[0] == o[0];
  }

  lemma MarksSnoc(o: string, seg: string)
    requires '/' !in seg
    ensures Marks(o + "/" + seg) == Marks(o) + [seg == ""]
  {
    RemoveLastSegment(o, seg);
    var s := o + "/" + seg;
    if seg != "" { assert s[|s| - 1] == seg[|seg| - 1]; }
  }

  lemma MarksUp(o: string)
    ensures Marks(RemoveLast(o)) == DropLast(Marks(o))
  {
  }

  lemma RootedUp(o: string)
    requires Rooted(o)
    ensures Rooted(RemoveLast(o))
  {
    var seg := LastSegment(o);
    if o != "" { RootedLast(o, RemoveLast(o), seg); }
  }

  /** Both the loop and the marks go on after a dot segment */
  lemma MarksAfterDot(o: string, rel: string, o': string)
    requires rel != "" && IsDotSegment(rel[..Find(rel, '/')])
    requires o' == if IsDot(rel[..Find(rel, '/')]) then o else RemoveLast(o)
    ensures Walk(o + "/", rel) == Walk(o' + "/", Rest(rel))
    ensures EndMarks(rel, Marks(o)) == EndMarks(Rest(rel), Marks(o'))
  {
    WalkDot(o, rel);
    MarksUp(o);
  }

  /** and after an ordinary segment. */
  lemma MarksAfterSegment(o: string, rel: string, o': string)
    requires Find(rel, '/') < |rel| && !IsDotSegment(rel[..Find(rel, '/')]) && o' == o + "/" + rel[..Find(rel, '/')]
    ensures Walk(o + "/", rel) == Walk(o' + "/", SkipSlashes(Rest(rel)))
    ensures EndMarks(rel, Marks(o)) == EndMarks(SkipSlashes(Rest(rel)), Marks(o'))
  {
    WalkOrdinary(o, rel);
    MarksSnoc(o, rel[..Find(rel, '/')]);
  }

  /** The loop ends with a directory o', whose marks the input tells, a slash and a file. */
  lemma {:induction false} WalkEnds(o: string, rel: string) returns (o': string, file: string)
    requires Rooted(o)
    ensures Walk(o + "/", rel) == o' + "/" + file && '/' !in file && Rooted(o')
    ensures Marks(o') == EndMarks(rel, Marks(o))
    decreases |rel|
  {
    var k := Find(rel, '/');
    if rel == "" {
      o', file := o, "";
      assert o + "/" + "" == o + "/";
    } else if IsDotSegment(rel[..k]) {
      var next := if IsDot(rel[..k]) then o else RemoveLast(o);
      MarksAfterDot(o, rel, next);
      RootedUp(o);
      o', file := WalkEnds(next, Rest(rel));
    } else if k < |rel| {
      MarksAfterSegment(o, rel, o + "/" + rel[..k]);
      o', file := WalkEnds(o + "/" + rel[..k], SkipSlashes(Rest(rel)));
    } else {
      WalkOrdinary(o, rel);
      o', file := o, rel;
    }
  }

  lemma CleanEnds(path: string) returns (o: string, file: string)
    ensures Clean(path) == o + "/" + file && '/' !in file && Rooted(o) && Marks(o) == EndMarks(Body(path), [])
  {
    CleanIsWalk(path);
    assert "" + "/" == "/";
    o, file := WalkEnds("", Body(path));
  }

  /** One application leaves a slash run exactly if reading the path leaves an empty segment. */
  lemma CleanLeavesRun(path: string)
    ensures NoSlashRun(Clean(path)) <==> !LeavesEmpty(path)
  {
    var o, file := CleanEnds(path);
    MarksMeaning(o);
    NoSlashRunSuffix(o + "/", file);
  }

  /** So one application is enough exactly when reading the path leaves no empty segment. */
  lemma CleanIdempotentExactly(path: string)
    ensures Clean(Clean(path)) == Clean(path) <==> !LeavesEmpty(path)
  {
    CleanShape(path);
    CleanFixpoint(Clean(path));
    CleanLeavesRun(path);
  }

  /** The first mark tells whether a second slash follows the leading one. */
  lemma {:induction false} FirstMark(o: string)
    requires Rooted(o) && o != ""
    ensures Marks(o) != [] && (Marks(o)[0] <==> (o + "/")[1] == '/')
    decreases |o|
  {
    var seg := LastSegment(o);
    var up := RemoveLast(o);
    RootedLast(o, up, seg);
    if up == "" {
      assert seg != "" ==> (o + "/")[1] == seg[0] && seg[0] in seg;
    } else {
      FirstMark(up);
      assert (o + "/")[1] == (up + "/")[1];
    }
  }

  /** The cleaned path starts with two slashes exactly if reading the path leaves an empty segment in the first place. */
  lemma CleanLeavesRunFirst(path: string)
    ensures StartsWith(Clean(path), "//") <==> LeavesEmptyFirst(path)
  {
    var o, file := CleanEnds(path);
    var s := o + "/" + file;
    if o == "" {
      assert |s| >= 2 ==> s[1] == file[0] && file[0] in file;
    } else {
      FirstMark(o);
      assert s[0] == o[0] && s[1] == (o + "/")[1];
    }
    assert |s| >= 2 ==> (s[..2] == "//" <==> s[0] == '/' && s[1] == '/');
  }

  /** In particular a single application suffices when no slash run follows a dot segment of the path. */
  lemma CleanIdempotent(path: string)
    requires RunFree(Body(path)) || NoSlashRun(path)
    ensures !LeavesEmpty(path)
  {
    var rel := Body(path);
    if !RunFree(rel) {
      if path != "" && path[0] == '/' {
        assert !RunAt(path, 0);
        NoSlashRunSlice(path, 1, |path|);
        assert path[1..|path|] == rel;
      }
      NoSlashRunIsRunFree(rel);
      assert false;
    }
    assert "" + "/" == "/";
    WalkNoSlashRun("", rel);
    CleanIsWalk(path);
    CleanLeavesRun(path);
  }

  /** An instance: "/.//b" cleans to "//b". */
  lemma CleanToDoubleSlash(b: string)
    requires Plain(b)
    ensures Clean("/" + ("./" + ("/" + b))) == "//" + b
  {
    var rel := "./" + ("/" + b);
    BodyAfterSlash(rel);
    CleanIsWalk("/" + rel);
    assert Find(rel, '/') == 1 && IsDot(rel[..1]) && Rest(rel) == "/" + b by { FindUnique(rel, '/', 1); }
    WalkDot("", rel);
    assert "" + "/" == "/";
    StepOverNothing(b);
  }

  predicate Plain(seg: string) {
    seg != "" && '/' !in seg && !IsDotSegment(seg)
  }

  /** One application is not always enough: "/a/..//b" cleans to "//b", and that to "/b", whatever a and b are. */
  lemma CleanNotIdempotent(a: string, b: string)
    requires Plain(a) && Plain(b)
    ensures Clean("/" + (a + "/" + ("../" + ("/" + b)))) == "//" + b && Clean("//" + b) == "/" + b
  {
    LeavesRun(a, b);
    DropsRun(b);
  }

  lemma LeavesRun(a: string, b: string)
    requires Plain(a) && Plain(b)
    ensures Clean("/" + (a + "/" + ("../" + ("/" + b)))) == "//" + b
  {
    var up := "../" + ("/" + b);
    var rel := a + "/" + up;
    BodyAfterSlash(rel);
    CleanIsWalk("/" + rel);
    WalkUpAndDown(a, b);
  }

  lemma BodyAfterSlash(rel: string)
    requires rel != "" && rel[0] != '/'
    ensures Body("/" + rel) == rel
  {
    assert ("/" + rel)[1..] == rel;
  }

  lemma WalkUpAndDown(a: string, b: string)
    requires Plain(a) && Plain(b)
    ensures Walk("/", a + "/" + ("../" + ("/" + b))) == "//" + b
  {
    var up := "../" + ("/" + b);
    assert SkipSlashes(up) == up;
    assert Walk("" + "/", a + "/" + up) == Walk("" + "/" + a + "/", up) by { WalkSegment("", a, up); }
    assert "" + "/" == "/";
    StepUp("", a, "/" + b);
    StepOverNothing(b);
  }

  lemma DropsRun(b: string)
    requires Plain(b)
    ensures Clean("//" + b) == "/" + b
  {
    assert Body("//" + b) == b by {
      var twice, once := "//" + b, "/" + b;
      assert twice[1..] == once && once[1..] == b && b[0] in b;
      assert SkipSlashes(once) == SkipSlashes(b) == b;
    }
    CleanIsWalk("//" + b);
    WalkFile("", b);
    assert "" + "/" == "/";
  }

  lemma WalkFile(o: string, file: string)
    requires file != "" && '/' !in file && !IsDotSegment(file)
    ensures Walk(o + "/", file) == o + "/" + file
  {
    FindUnique(file, '/', |file|);
    assert file[..|file|] == file;
    WalkOrdinary(o, file);
  }

  /** One turn over a segment, a slash and the rest. */
  lemma WalkSegment(o: string, seg: string, rest: string)
    requires '/' !in seg && !IsDotSegment(seg)
    ensures Walk(o + "/", seg + "/" + rest) == Walk(o + "/" + seg + "/", SkipSlashes(rest))
  {
    var rel := seg + "/" + rest;
    forall j | 0 <= j < |seg| ensures rel[j] != '/' { assert rel[j] == seg[j]; }
    FindUnique(rel, '/', |seg|);
    assert rel[..|seg|] == seg && Rest(rel) == rest;
    WalkOrdinary(o, rel);
  }

  lemma {:induction false} RemoveLastSegment(o: string, seg: string)
    requires '/' !in seg
    ensures RemoveLast(o + "/" + seg) == o
    decreases |seg|
  {
    var s := o + "/" + seg;
    if seg == "" {
      assert s[..|s| - 1] == o;
    } else {
      assert s[..|s| - 1] == o + "/" + seg[..|seg| - 1];
      RemoveLastSegment(o, seg[..|seg| - 1]);
    }
  }

  lemma StepUp(o: string, a: string, rest: string)
    requires '/' !in a
    ensures Walk(o + "/" + a + "/", "../" + rest) == Walk(o + "/", rest)
  {
    var rel := "../" + rest;
    assert Find(rel, '/') == 2 && IsDotDot(rel[..2]) && Rest(rel) == rest by { FindUnique(rel, '/', 2); }
    assert RemoveLast(o + "/" + a) == o by { RemoveLastSegment(o, a); }
    WalkDot(o + "/" + a, rel);
  }

  lemma StepOverNothing(b: string)
    requires Plain(b)
    ensures Walk("/", "/" + b) == "//" + b
  {
    WalkSegment("", "", b);
    WalkFile("/", b);
    assert "" + "/" + b == "/" + b && "" + "/" + "" + "/" == "/" + "/" && "/" + "/" + b == "//" + b;
  }

  // ---------------------------------------------------------------- check_path

  /** lib/util.cc's check_path */
  predicate CheckPath(path: string) {
    && path != "" && path[0] == '/'
    && '\\' !in path
    && !Contains(path, "/../")
    && !Contains(path, "/./")
    && !EndsWith(path, "/..")
    && !EndsWith(path, "/.")
  }

  lemma OccursChar(s: string, sub: string, i: nat, j: nat)
    requires OccursAt(s, sub, i) && j < |sub|
    ensures s[i + j] == sub[j]
  {
    assert s[i..i + |sub|][j] == sub[j];
  }

  /** A segment is seen by the substring tests of check_path once a slash precedes it. */
  lemma {:induction false} SegmentSeen(t: string, seg: string)
    requires '/' !in seg
    ensures seg in Split(t) <==> Contains("/" + t, "/" + seg + "/") || EndsWith("/" + t, "/" + seg)
    decreases |t|
  {
    var k := Find(t, '/');
    var s, mid, fin := "/" + t, "/" + seg + "/", "/" + seg;
    FirstThenRest(t);
    if k == |t| {
      assert t == t[..k];
      forall i: nat | i <= |s| ensures !OccursAt(s, mid, i) {
        if OccursAt(s, mid, i) { OccursChar(s, mid, i, |mid| - 1); assert false; }
      }
      if EndsWith(s, fin) {
        var i := |s| - |fin|;
        assert s[i..][0] == '/';
        if i > 0 { assert false; }
        assert s[i..] == s;
        assert s[1..] == t && fin[1..] == seg;
      }
    } else {
      var t' := t[k + 1..];
      var s' := "/" + t';
      assert s == "/" + t[..k] + s';
      SegmentSeen(t', seg);
      SeenLater(t[..k], t', seg);
    }
  }

  /** Looking for seg in "/" + first + "/" + t': it is first itself, or it is found in "/" + t'. */
  lemma SeenLater(first: string, t': string, seg: string)
    requires '/' !in first && '/' !in seg
    ensures var s, s' := "/" + first + ("/" + t'), "/" + t';
            && (Contains(s, "/" + seg + "/") <==> first == seg || Contains(s', "/" + seg + "/"))
            && (EndsWith(s, "/" + seg) <==> EndsWith(s', "/" + seg))
  {
    SeenInside(first, t', seg);
    SeenAtEnd(first, t', seg);
  }

  lemma SeenInside(first: string, t': string, seg: string)
    requires '/' !in first && '/' !in seg
    ensures Contains("/" + first + ("/" + t'), "/" + seg + "/") <==> first == seg || Contains("/" + t', "/" + seg + "/")
  {
    var s, s' := "/" + first + ("/" + t'), "/" + t';
    var mid, d := "/" + seg + "/", |first| + 1;
    if first == seg {
      assert s[0..|mid|] == mid;
      assert OccursAt(s, mid, 0);
    }
    forall i: nat | i <= |s'| && OccursAt(s', mid, i) ensures OccursAt(s, mid, d + i) {
      assert s[d + i..d + i + |mid|] == s'[i..i + |mid|];
    }
    forall i: nat | i <= |s| && OccursAt(s, mid, i)
      ensures (i == 0 && first == seg) || (i >= d && OccursAt(s', mid, i - d))
    {
      OccursInBoth(first, t', seg, i);
    }
  }

  lemma SeenAtEnd(first: string, t': string, seg: string)
    requires '/' !in first && '/' !in seg
    ensures EndsWith("/" + first + ("/" + t'), "/" + seg) <==> EndsWith("/" + t', "/" + seg)
  {
    var s, s' := "/" + first + ("/" + t'), "/" + t';
    var fin, d := "/" + seg, |first| + 1;
    if |fin| <= |s'| {
      assert s[|s| - |fin|..] == s'[|s'| - |fin|..];
    } else if EndsWith(s, fin) {
      OccursChar(s, fin, |s| - |fin|, d - (|s| - |fin|));
      assert false;
    }
  }

  lemma OccursInBoth(first: string, t': string, seg: string, i: nat)
    requires '/' !in first && '/' !in seg
    requires OccursAt("/" + first + ("/" + t'), "/" + seg + "/", i)
    ensures (i == 0 && first == seg) || (i >= |first| + 1 && OccursAt("/" + t', "/" + seg + "/", i - |first| - 1))
  {
    var s, s' := "/" + first + ("/" + t'), "/" + t';
    var mid, d := "/" + seg + "/", |first| + 1;
    assert forall j | 0 <= j < |mid| :: s[i + j] == s[i..i + |mid|][j] == mid[j];
    assert s[i] == mid[0] == '/';
    if i >= d {
      assert s[i..i + |mid|] == s'[i - d..i - d + |mid|];
    } else {
      if 0 < i { assert false; }
      assert s[|mid| - 1] == mid[|mid| - 1] == '/';
      assert s[d] == '/';
      if |mid| - 1 < d { assert false; }
      if d < |mid| - 1 { assert false; }
      assert first == s[1..d] == mid[1..d] == seg;
    }
  }

  lemma DotFreeMembers(s: string)
    ensures DotFree(s) <==> "." !in Split(s) && ".." !in Split(s)
  {
    forall seg | seg in Split(s)
      ensures IsDotSegment(seg) <==> seg == "." || seg == ".."
    {
    }
    if !DotFree(s) {
      var seg :| seg in Split(s) && IsDotSegment(seg);
    }
  }

  /** The four tests for dot segments. */
  predicate ShowsDots(path: string) {
    Contains(path, "/../") || Contains(path, "/./") || EndsWith(path, "/..") || EndsWith(path, "/.")
  }

  lemma DotsShow(path: string)
    requires Absolute(path)
    ensures DotFree(path) <==> !ShowsDots(path)
  {
    var t := path[1..];
    assert DotFree(path) <==> DotFree(t) by {
      assert path == "" + "/" + t;
      DotFreeConcat("", t);
      DotFreePlain("");
    }
    assert DotFree(t) <==> "." !in Split(t) && ".." !in Split(t) by { DotFreeMembers(t); }
    assert path == "/" + t;
    DotSeen(path, t);
    DotDotSeen(path, t);
  }

  lemma DotSeen(path: string, t: string)
    requires path == "/" + t
    ensures "." in Split(t) <==> Contains(path, "/./") || EndsWith(path, "/.")
  {
    SeenAsTested(path, t, ".", "/./", "/.");
  }

  lemma DotDotSeen(path: string, t: string)
    requires path == "/" + t
    ensures ".." in Split(t) <==> Contains(path, "/../") || EndsWith(path, "/..")
  {
    SeenAsTested(path, t, "..", "/../", "/..");
  }

  /** check_path's six tests say exactly: absolute, no backslash, no dot segment. */
  lemma CheckPathMeaning(path: string)
    ensures CheckPath(path) <==> Absolute(path) && '\\' !in path && DotFree(path)
  {
    if Absolute(path) { DotsShow(path); }
  }

  lemma SeenAsTested(path: string, t: string, seg: string, mid: string, fin: string)
    requires path == "/" + t && '/' !in seg && mid == "/" + seg + "/" && fin == "/" + seg
    ensures seg in Split(t) <==> Contains(path, mid) || EndsWith(path, fin)
  {
    SegmentSeen(t, seg);
  }

  /** A cleaned path passes check_path unless it contains a backslash. */
  lemma CleanPassesCheckPath(path: string)
    ensures CheckPath(Clean(path)) <==> '\\' !in Clean(path)
  {
    CleanShape(path);
    CheckPathMeaning(Clean(path));
  }
}
