/**
  path_join with a base: the resolution of a relative reference by sections 5.2.2, 5.2.3 and 5.3 of RFC 3986, and exactly
  where the code departs from it.
*/
module PathResolve {
  import opened Text
  import opened PathClean
  import opened PathShape

  /** Path and query of a reference. The code does not tell an empty query from none. */
  datatype Reference = Reference(path: string, query: string)

  /** Section 5.2.3: the base without what follows its last slash, then the reference; a base without path counts as "/". */
  function Merge(base: string, rel: string): string {
    (if base == "" then "/" else RemoveLast(base) + "/") + rel
  }

  /** Section 5.2.2, for references without scheme and authority */
  function Resolve(base: Reference, r: Reference): Reference {
    if r.path == "" then Reference(if base.path == "" then "/" else base.path, if r.query != "" then r.query else base.query)
    else if r.path[0] == '/' then Reference(RemoveDotSegments(r.path), r.query)
    else Reference(RemoveDotSegments(Merge(base.path, r.path)), r.query)
  }

  /** Section 5.3 */
  function Recompose(r: Reference): string {
    if r.query == "" then r.path else r.path + "?" + r.query
  }

  /** The reference with the slash runs dropped that the code drops. */
  function Squeezed(r: Reference): Reference {
    if r.path == "" then r
    else if r.path[0] == '/' then r.(path := Squeeze(r.path))
    else r.(path := SqueezeTail(r.path))
  }

  /** Nothing but "." segments, after which the code has nothing to do. */
  predicate OnlyDots(rel: string) {
    rel == "" || IsDot(rel) || (DotSlash(rel) && OnlyDots(rel[2..]))
  }

  lemma {:induction false} WalkOnlyDots(out: string, rel: string)
    requires out != "" && OnlyDots(rel)
    ensures Walk(out, rel) == out
  {
    if DotSlash(rel) { WalkOnlyDots(out, rel[2..]); }
  }

  lemma EatFileOf(o: string, file: string)
    requires '/' !in file
    ensures EatFile(o + "/" + file) == o + "/"
  {
    EatFileIsRemoveLast(o + "/" + file);
    RemoveLastSegment(o, file);
  }

  lemma EatDirOf(o: string, file: string)
    requires '/' !in file
    ensures EatDir(o + "/" + file) == EatDir(o + "/")
  {
    EatFileOf(o, file);
    EatFileOf(o, "");
    assert o + "/" + "" == o + "/";
  }

  /** Anything else drops the file name of the base first. */
  lemma {:induction false} WalkDropsFile(o: string, file: string, rel: string)
    requires '/' !in file && !OnlyDots(rel)
    ensures Walk(o + "/" + file, rel) == Walk(o + "/", rel)
    decreases |rel|
  {
    if DotSlash(rel) {
      WalkDropsFile(o, file, rel[2..]);
    } else if IsDotDot(rel) || DotDotSlash(rel) {
      EatDirOf(o, file);
    } else {
      DirectoryOf(o, file);
    }
  }

  lemma DirectoryOf(o: string, file: string)
    requires '/' !in file
    ensures Directory(o + "/" + file) == o + "/" == Directory(o + "/")
  {
    EatFileOf(o, file);
    var s := o + "/" + file;
    if file == "" {
      assert s == o + "/";
    } else {
      assert s[|s| - 1] == file[|file| - 1] && file[|file| - 1] in file;
    }
  }

  lemma FindSegment(seg: string, t: string)
    requires '/' !in seg
    ensures var s := seg + ("/" + t); Find(s, '/') == |seg| && s[..|seg|] == seg && s[|seg|..] == "/" + t
  {
    var s := seg + ("/" + t);
    forall j | 0 <= j < |seg| ensures s[j] != '/' { assert s[j] == seg[j] && seg[j] in seg; }
    FindUnique(s, '/', |seg|);
  }

  /** Step E of the RFC's algorithm on a segment and what follows it. */
  lemma RfcSegment(out: string, seg: string, t: string)
    requires '/' !in seg && !IsDotSegment(seg)
    ensures RemoveDotSegments("/" + (seg + ("/" + t)), out) == RemoveDotSegments("/" + t, out + "/" + seg)
  {
    FindSegment(seg, t);
    RfcOrdinary(seg + ("/" + t), out);
  }

  lemma Regroup(seg: string, rest: string, x: string)
    ensures seg + ("/" + rest) + "/" + x == seg + ("/" + (rest + "/" + x))
  {
  }

  /** The RFC's algorithm copies segments that are not dot segments to its output. */
  lemma {:induction false} RfcCopiesSegments(out: string, r: string, x: string)
    requires DotFree(r)
    ensures RemoveDotSegments("/" + (r + "/" + x), out) == RemoveDotSegments("/" + x, out + "/" + r)
    decreases |r|
  {
    DotFreeFirstThenRest(r);
    if Find(r, '/') < |r| {
      var seg, rest := r[..Find(r, '/')], Rest(r);
      CutFirst(r);
      Regroup(seg, rest, x);
      RfcSegment(out, seg, rest + "/" + x);
      RfcCopiesSegments(out + "/" + seg, rest, x);
      AfterDirectory(out, seg, rest);
    } else {
      assert r[..|r|] == r && r + "/" + x == r + ("/" + x);
      RfcSegment(out, r, x);
    }
  }

  lemma RfcCopies(o: string, x: string)
    requires Rooted(o) && DotFree(o)
    ensures RemoveDotSegments(o + "/" + x, "") == RemoveDotSegments("/" + x, o)
  {
    if o == "" {
      assert o + "/" + x == "/" + x;
    } else {
      var r := o[1..];
      assert o == "" + "/" + r && o + "/" + x == "/" + (r + "/" + x);
      DotFreeConcat("", r);
      RfcCopiesSegments("", r, x);
    }
  }

  /** Reading rel after the directory o is the RFC's algorithm on the merged path. */
  lemma WalkIsRfcOnMerged(o: string, rel: string)
    requires Rooted(o) && DotFree(o)
    ensures Walk(o + "/", rel) == RemoveDotSegments(o + "/" + SqueezeTail(rel))
  {
    WalkSimulatesRfc(o, rel);
    RfcCopies(o, SqueezeTail(rel));
  }

  /** A base path taken apart */
  lemma BaseParts(base: string) returns (o: string, file: string)
    requires Absolute(base) && DotFree(base)
    ensures base == o + "/" + file && '/' !in file && Rooted(o) && DotFree(o) && o == RemoveLast(base)
  {
    file := LastSegment(base);
    o := RemoveLast(base);
    RootedLast(base, o, file);
    DotFreeConcat(o, file);
  }

  /**
    For every relative path and every absolute base path without dot segments: the result is the RFC's if and only if the
    reference does something or the base ends in a slash. Otherwise the code keeps the base's file name.
  */
  lemma JoinRelative(base: string, rel: string)
    requires Absolute(base) && DotFree(base) && rel != "" && rel[0] != '/'
    ensures Walk(base, rel) == RemoveDotSegments(Merge(base, SqueezeTail(rel)))
       <==> !OnlyDots(rel) || base[|base| - 1] == '/'
    ensures OnlyDots(rel) ==> Walk(base, rel) == base
  {
    var o, file := BaseParts(base);
    WalkIsRfcOnMerged(o, rel);
    if OnlyDots(rel) {
      WalkOnlyDots(base, rel);
      WalkOnlyDots(o + "/", rel);
      assert base == o + "/" <==> file == "";
      assert file != "" ==> base[|base| - 1] == file[|file| - 1] && file[|file| - 1] in file;
    } else {
      WalkDropsFile(o, file, rel);
    }
  }

  /** The reference does something, or is empty, or is absolute. */
  predicate Moves(r: Reference) {
    r.path == "" || r.path[0] == '/' || !OnlyDots(r.path)
  }

  /**
    path_join resolves a reference as sections 5.2 and 5.3 of RFC 3986 do, slash runs dropped, for every base whose path is
    empty or absolute without dot segments, if and only if the reference moves or the base path ends in a slash.
  */
  lemma JoinIsResolution(base: Reference, r: Reference)
    requires base.path == "" || (Absolute(base.path) && DotFree(base.path))
    ensures Join(base.path, base.query, r.path, r.query) == Recompose(Resolve(base, Squeezed(r)))
       <==> Moves(r) || base.path == "" || base.path[|base.path| - 1] == '/'
  {
    if r.path == "" {
    } else if r.path[0] == '/' {
      CleanIsWalk(r.path);
      CleanIsRfcOnSqueezed(r.path);
      assert Squeeze(r.path)[0] == '/';
    } else {
      JoinOfRelative(base, r);
    }
  }

  lemma JoinOfRelative(base: Reference, r: Reference)
    requires base.path == "" || (Absolute(base.path) && DotFree(base.path))
    requires r.path != "" && r.path[0] != '/'
    ensures Join(base.path, base.query, r.path, r.query) == Recompose(Resolve(base, Squeezed(r)))
       <==> !OnlyDots(r.path) || base.path == "" || base.path[|base.path| - 1] == '/'
  {
    var b := if base.path == "" then "/" else base.path;
    DotFreePlain("");
    DotFreeConcat("", "");
    assert "" + "/" + "" == "/";
    JoinRelative(b, r.path);
    MergeOfRoot(SqueezeTail(r.path));
    SqueezedFirst(r.path);
    WithQueryInjective(Walk(b, r.path), RemoveDotSegments(Merge(base.path, SqueezeTail(r.path))), r.query);
  }

  lemma MergeOfRoot(rel: string)
    ensures Merge("", rel) == Merge("/", rel)
  {
    assert "/"[..0] == "" && RemoveLast("/") == "" && "" + "/" == "/";
  }

  lemma SqueezedFirst(rel: string)
    requires rel != "" && rel[0] != '/'
    ensures SqueezeTail(rel) != "" && SqueezeTail(rel)[0] == rel[0]
  {
    SqueezeKeepsFirst(rel);
    var k := Find(rel, '/');
    assert k > 0 && SqueezeTail(rel)[..k][0] == rel[..k][0];
  }

  lemma WithQueryInjective(a: string, b: string, query: string)
    ensures WithQuery(a, query) == WithQuery(b, query) <==> a == b
  {
    if query != "" && WithQuery(a, query) == WithQuery(b, query) {
      var s := a + "?" + query;
      assert |a| == |b| && s[..|a|] == a && s[..|b|] == b;
    }
  }
}
