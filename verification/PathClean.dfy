/**
  Path cleaning: what lib/http2.cc's path_join computes, written over string values, and what that value means.
  The in-place buffer algorithm is in PathBuffer and is proved to compute `Join`.
*/
module PathClean {
  import opened Text

  /** Drops the file part of a path: everything after the last slash. A path without a slash becomes "/". */
  function EatFile(out: string): (r: string)
    ensures r != "" && r[|r| - 1] == '/'
    ensures r == "/" || r <= out
    ensures |r| <= |out| || r == "/"
  {
    if out == "" then "/"
    else if out[|out| - 1] == '/' then out
    else EatFile(out[..|out| - 1])
  }

  function EatDir(out: string): (r: string)
    ensures r != "" && r[|r| - 1] == '/'
    ensures |r| <= |out| || r == "/"
  {
    var p := EatFile(out);
    EatFile(p[..|p| - 1])
  }

  function SkipSlashes(s: string): (r: string)
    ensures |r| <= |s|
    ensures r == "" || r[0] != '/'
  {
    if s != "" && s[0] == '/' then SkipSlashes(s[1..]) else s
  }

  /** What is skipped is a run of slashes and nothing else. */
  lemma {:induction false} SkipsOnlySlashes(s: string)
    ensures var n := |s| - |SkipSlashes(s)|; SkipSlashes(s) == s[n..] && forall i | 0 <= i < n :: s[i] == '/'
  {
    if s != "" && s[0] == '/' {
      SkipsOnlySlashes(s[1..]);
      var n := |s| - |SkipSlashes(s)|;
      forall i | 0 <= i < n ensures s[i] == '/' {
        if i > 0 { assert s[1..][i - 1] == s[i]; }
      }
    }
  }

  predicate IsDot(seg: string) {
    |seg| == 1 && seg[0] == '.'
  }

  predicate IsDotDot(seg: string) {
    |seg| == 2 && seg[0] == '.' && seg[1] == '.'
  }

  predicate IsDotSegment(seg: string) {
    IsDot(seg) || IsDotDot(seg)
  }

  /** s starts with "./" */
  predicate DotSlash(s: string) {
    |s| >= 2 && s[0] == '.' && s[1] == '/'
  }

  /** s starts with "../" */
  predicate DotDotSlash(s: string) {
    |s| >= 3 && s[0] == '.' && s[1] == '.' && s[2] == '/'
  }

  /** s is a slash followed by something with property p; written out because s may be empty */
  predicate AfterSlash(s: string, p: string -> bool) {
    s != "" && s[0] == '/' && p(s[1..])
  }

  /** The part of a path still to be read after its first segment and the slash that ends it. */
  function Rest(rel: string): string {
    var k := Find(rel, '/');
    if k == |rel| then "" else rel[k + 1..]
  }

  /** The main loop of path_join: out has been written, rel is still to be read. */
  function Walk(out: string, rel: string): (r: string)
    requires out != ""
    decreases |rel|
  {
    if rel == "" || IsDot(rel) then out
    else if DotSlash(rel) then Walk(out, rel[2..])
    else if IsDotDot(rel) then EatDir(out)
    else if DotDotSlash(rel) then Walk(EatDir(out), rel[3..])
    else
      var k := Find(rel, '/');
      if k == |rel| then Directory(out) + rel
      else Walk(Directory(out) + rel[..k + 1], SkipSlashes(rel[k + 1..]))
  }

  /** Out without a leftover file name. */
  function Directory(out: string): (r: string)
    requires out != ""
    ensures r != ""
  {
    if out[|out| - 1] != '/' then EatFile(out) else out
  }

  function WithQuery(path: string, query: string): string {
    if query == "" then path else path + "?" + query
  }

  function Join(basePath: string, baseQuery: string, relPath: string, relQuery: string): string {
    var base := if basePath == "" then "/" else basePath;
    if relPath == "" then WithQuery(base, if relQuery == "" then baseQuery else relQuery)
    else if relPath[0] == '/' then WithQuery(Walk("/", SkipSlashes(relPath[1..])), relQuery)
    else WithQuery(Walk(base, relPath), relQuery)
  }

  /** path_join with empty base path and empty queries, the form serve_mux uses. */
  function Clean(path: string): string {
    Join("", "", path, "")
  }

  /** What follows the leading slash once path has been made absolute. */
  function Body(path: string): (rel: string) {
    if path != "" && path[0] == '/' then SkipSlashes(path[1..]) else path
  }

  lemma CleanIsWalk(path: string)
    ensures Clean(path) == Walk("/", Body(path))
  {
  }

  // ---------------------------------------------------------------- section 5.2.4 of RFC 3986

  /** "remove the last segment and its preceding "/" (if any) from the output buffer" */
  function RemoveLast(output: string): (r: string)
    ensures |r| <= |output| && (output != "" ==> |r| < |output|)
  {
    if output == "" then ""
    else if output[|output| - 1] == '/' then output[..|output| - 1]
    else RemoveLast(output[..|output| - 1])
  }

  /** The first segment of the input buffer, with its initial slash if it has one. */
  function FirstSegment(input: string): (k: nat)
    requires input != ""
    ensures 0 < k <= |input|
  {
    if input[0] == '/' then 1 + Find(input[1..], '/') else Find(input, '/')
  }

  /** Steps 2A to 2E of remove_dot_segments, on an input and an output buffer. */
  function RemoveDotSegments(input: string, output: string := ""): (r: string)
    decreases |input|
  {
    if input == "" then output
    else if DotDotSlash(input) then RemoveDotSegments(input[3..], output)                                // A
    else if DotSlash(input) then RemoveDotSegments(input[2..], output)                                   // A
    else if AfterSlash(input, DotSlash) then RemoveDotSegments(input[2..], output)                       // B
    else if AfterSlash(input, IsDot) then RemoveDotSegments("/", output)                                 // B
    else if AfterSlash(input, DotDotSlash) then RemoveDotSegments(input[3..], RemoveLast(output))        // C
    else if AfterSlash(input, IsDotDot) then RemoveDotSegments("/", RemoveLast(output))                  // C
    else if IsDotSegment(input) then output                                                              // D
    else                                                                                                 // E
      var k := FirstSegment(input);
      RemoveDotSegments(input[k..], output + input[..k])
  }

  /**
    The slash runs that path_join drops: the run that opens the path and every run after an ordinary segment.
    A run after "." or ".." is kept, which is where path_join and full slash squeezing part.
  */
  function SqueezeTail(rel: string): (r: string)
    decreases |rel|
  {
    var k := Find(rel, '/');
    if k == |rel| then rel
    else
      rel[..k + 1] + SqueezeTail(SqueezedRest(rel))
  }

  function SqueezedRest(rel: string): (r: string)
    ensures rel != "" ==> |r| < |rel|
  {
    if IsDotSegment(rel[..Find(rel, '/')]) then Rest(rel) else SkipSlashes(Rest(rel))
  }

  function Squeeze(path: string): string {
    "/" + SqueezeTail(Body(path))
  }

  lemma {:induction false} EatFileIsRemoveLast(out: string)
    ensures EatFile(out) == RemoveLast(out) + "/"
  {
    if out != "" {
      if out[|out| - 1] == '/' {
        assert out == out[..|out| - 1] + "/";
      } else {
        EatFileIsRemoveLast(out[..|out| - 1]);
      }
    }
  }

  lemma EatDirIsRemoveLast(o: string)
    ensures EatDir(o + "/") == RemoveLast(o) + "/"
  {
    assert (o + "/")[..|o|] == o;
    EatFileIsRemoveLast(o);
  }

  /** How a nonempty rel is taken apart: a dot segment or an ordinary one, alone or followed by a slash. */
  lemma FirstSegmentCases(rel: string)
    requires rel != ""
    ensures var k := Find(rel, '/');
            && (IsDot(rel) <==> k == |rel| && IsDot(rel[..k]))
            && (IsDotDot(rel) <==> k == |rel| && IsDotDot(rel[..k]))
            && (DotSlash(rel) <==> k < |rel| && IsDot(rel[..k]))
            && (DotDotSlash(rel) <==> k < |rel| && IsDotDot(rel[..k]))
  {
    var k := Find(rel, '/');
    if IsDot(rel) || DotSlash(rel) { FindUnique(rel, '/', 1); }
    if IsDotDot(rel) || DotDotSlash(rel) { FindUnique(rel, '/', 2); }
    assert |rel[..k]| == k && (k >= 1 ==> rel[..k][0] == rel[0]) && (k >= 2 ==> rel[..k][1] == rel[1]);
  }

  /** Step E on "/" + rel, when rel does not start with a dot segment. */
  lemma RfcOrdinary(rel: string, o: string)
    requires !IsDotSegment(rel[..Find(rel, '/')])
    ensures var k := Find(rel, '/');
            RemoveDotSegments("/" + rel, o) == RemoveDotSegments(rel[k..], o + "/" + rel[..k])
  {
    var k := Find(rel, '/');
    OrdinaryInput(rel);
    RfcStepE("/" + rel, o, rel[k..], o + "/" + rel[..k]);
  }

  lemma OrdinaryInput(rel: string)
    requires !IsDotSegment(rel[..Find(rel, '/')])
    ensures var input, k := "/" + rel, Find(rel, '/');
            && FirstSegment(input) == k + 1 && input[..k + 1] == "/" + rel[..k] && input[k + 1..] == rel[k..]
            && input[1..] == rel && !IsDotSegment(rel) && !DotSlash(rel) && !DotDotSlash(rel)
  {
    assert ("/" + rel)[1..] == rel;
    if rel != "" { FirstSegmentCases(rel); }
  }

  lemma RfcStepE(input: string, o: string, input': string, o': string)
    requires Absolute(input) && !IsDotSegment(input[1..]) && !DotSlash(input[1..]) && !DotDotSlash(input[1..])
    requires var k := FirstSegment(input); input' == input[k..] && o' == o + input[..k]
    ensures RemoveDotSegments(input, o) == RemoveDotSegments(input', o')
  {
  }

  /** Steps B and C on "/" + rel, when rel starts with a dot segment. */
  lemma RfcDot(rel: string, o: string)
    requires IsDotSegment(rel[..Find(rel, '/')])
    ensures var k := Find(rel, '/');
            RemoveDotSegments("/" + rel, o)
            == RemoveDotSegments("/" + Rest(rel), if IsDot(rel[..k]) then o else RemoveLast(o))
  {
    var input, k := "/" + rel, Find(rel, '/');
    assert input[1..] == rel;
    FirstSegmentCases(rel);
    if k == |rel| {
      assert "/" + Rest(rel) == "/";
    } else if IsDot(rel[..k]) {
      assert input[2..] == "/" + Rest(rel);
    } else {
      assert input[3..] == "/" + Rest(rel);
    }
  }

  lemma RfcEnd(o: string)
    ensures RemoveDotSegments("/", o) == o + "/"
  {
    RfcOrdinary("", o);
    assert "/" + "" == "/";
    assert o + "/" + "" == o + "/";
  }

  /** One turn of the loop at an ordinary segment, when the buffer ends with a slash. */
  lemma WalkOrdinary(o: string, rel: string)
    requires rel != "" && !IsDotSegment(rel[..Find(rel, '/')])
    ensures var k := Find(rel, '/');
            Walk(o + "/", rel)
            == if k == |rel| then o + "/" + rel else Walk(o + "/" + rel[..k] + "/", SkipSlashes(Rest(rel)))
  {
    var k := Find(rel, '/');
    FirstSegmentCases(rel);
    if k < |rel| {
      assert (o + "/") + rel[..k + 1] == o + "/" + rel[..k] + "/";
    }
  }

  /** One turn of the loop at a dot segment, when the buffer ends with a slash. */
  lemma WalkDot(o: string, rel: string)
    requires IsDotSegment(rel[..Find(rel, '/')])
    ensures var k := Find(rel, '/');
            Walk(o + "/", rel) == Walk((if IsDot(rel[..k]) then o else RemoveLast(o)) + "/", Rest(rel))
  {
    var k := Find(rel, '/');
    FirstSegmentCases(rel);
    EatDirIsRemoveLast(o);
    if k == |rel| {
      assert Rest(rel) == "";
    } else {
      assert Rest(rel) == rel[if IsDot(rel[..k]) then 2 else 3..];
    }
  }

  /** Both algorithms go on after a dot segment */
  lemma SimulateDot(o: string, rel: string, o': string)
    requires rel != "" && IsDotSegment(rel[..Find(rel, '/')])
    requires o' == if IsDot(rel[..Find(rel, '/')]) then o else RemoveLast(o)
    ensures Walk(o + "/", rel) == Walk(o' + "/", Rest(rel))
    ensures RemoveDotSegments("/" + SqueezeTail(rel), o) == RemoveDotSegments("/" + SqueezeTail(Rest(rel)), o')
  {
    var sq := SqueezeTail(rel);
    SqueezeKeepsFirst(rel);
    WalkDot(o, rel);
    RfcDot(sq, o);
    assert Rest(sq) == SqueezeTail(Rest(rel));
  }

  /** and after an ordinary segment, */
  lemma SimulateSegment(o: string, rel: string, o': string, rest: string)
    requires Find(rel, '/') < |rel| && !IsDotSegment(rel[..Find(rel, '/')])
    requires o' == o + "/" + rel[..Find(rel, '/')] && rest == SqueezedRest(rel)
    ensures Walk(o + "/", rel) == Walk(o' + "/", rest)
    ensures RemoveDotSegments("/" + SqueezeTail(rel), o) == RemoveDotSegments("/" + SqueezeTail(rest), o')
  {
    var sq, k := SqueezeTail(rel), Find(rel, '/');
    SqueezeKeepsFirst(rel);
    assert Walk(o + "/", rel) == Walk(o' + "/", rest) by { WalkOrdinary(o, rel); }
    RfcOrdinary(sq, o);
    assert sq[k..] == "/" + SqueezeTail(rest);
  }

  /** and end with the same file. */
  lemma SimulateEnd(o: string, rel: string)
    requires Find(rel, '/') == |rel| && !IsDotSegment(rel)
    ensures Walk(o + "/", rel) == RemoveDotSegments("/" + SqueezeTail(rel), o)
  {
    if rel == "" {
      assert "/" + SqueezeTail(rel) == "/";
      RfcEnd(o);
    } else {
      assert rel[..|rel|] == rel && rel[|rel|..] == "";
      WalkOrdinary(o, rel);
      RfcOrdinary(rel, o);
    }
  }

  /** The simulation: the code's buffer is always the RFC's output buffer followed by the slash still in its input. */
  lemma {:induction false} WalkSimulatesRfc(o: string, rel: string)
    ensures Walk(o + "/", rel) == RemoveDotSegments("/" + SqueezeTail(rel), o)
    decreases |rel|
  {
    var k := Find(rel, '/');
    if rel != "" && IsDotSegment(rel[..k]) {
      var o' := if IsDot(rel[..k]) then o else RemoveLast(o);
      SimulateDot(o, rel, o');
      WalkSimulatesRfc(o', Rest(rel));
    } else if k < |rel| {
      SimulateSegment(o, rel, o + "/" + rel[..k], SqueezedRest(rel));
      WalkSimulatesRfc(o + "/" + rel[..k], SqueezedRest(rel));
    } else {
      assert rel[..k] == rel;
      SimulateEnd(o, rel);
    }
  }

  lemma SqueezeKeepsFirst(rel: string)
    ensures var k := Find(rel, '/'); var sq := SqueezeTail(rel);
            && Find(sq, '/') == k <= |sq| && sq[..k] == rel[..k]
            && (k == |rel| ==> sq == rel)
            && (k < |rel| ==> k < |sq| && sq[k] == '/' && sq[k + 1..] == SqueezeTail(SqueezedRest(rel)))
  {
    var k := Find(rel, '/');
    if k < |rel| {
      FirstKept(rel, k, SqueezeTail(SqueezedRest(rel)));
    }
  }

  lemma FirstKept(rel: string, k: nat, tail: string)
    requires Find(rel, '/') == k < |rel|
    ensures var s := rel[..k + 1] + tail;
            Find(s, '/') == k && s[..k] == rel[..k] && s[k] == '/' && s[k + 1..] == tail
  {
    var s := rel[..k + 1] + tail;
    assert s[..k] == rel[..k];
    forall j | 0 <= j < k ensures s[j] != '/' { assert s[j] == rel[j]; }
    FindUnique(s, '/', k);
  }

  /** For every path, path_join with an empty base is the RFC's dot-segment removal on the squeezed path. */
  lemma CleanIsRfcOnSqueezed(path: string)
    ensures Clean(path) == RemoveDotSegments(Squeeze(path))
  {
    CleanIsWalk(path);
    assert "" + "/" == "/";
    WalkSimulatesRfc("", Body(path));
  }

  predicate Absolute(path: string) {
    path != "" && path[0] == '/'
  }

  predicate RunAt(s: string, i: nat) {
    i + 1 < |s| && s[i] == '/' && s[i + 1] == '/'
  }

  predicate NoSlashRun(s: string) {
    forall i: nat | i < |s| :: !RunAt(s, i)
  }

  lemma NoSlashRunSlice(s: string, i: nat, j: nat)
    requires NoSlashRun(s) && i <= j <= |s|
    ensures NoSlashRun(s[i..j])
  {
    var t := s[i..j];
    forall n: nat | n < |t| ensures !RunAt(t, n) {
      assert !RunAt(s, i + n);
    }
  }

  lemma NoSlashRunRest(rel: string)
    requires NoSlashRun(rel)
    ensures NoSlashRun(Rest(rel)) && SkipSlashes(Rest(rel)) == Rest(rel)
  {
    var k := Find(rel, '/');
    if k < |rel| {
      NoSlashRunSlice(rel, k + 1, |rel|);
      assert !RunAt(rel, k);
      assert rel[k + 1..|rel|] == Rest(rel);
    }
  }

  lemma {:induction false} SqueezeTailIdentity(rel: string)
    requires NoSlashRun(rel)
    ensures SqueezeTail(rel) == rel
    decreases |rel|
  {
    var k := Find(rel, '/');
    if k < |rel| {
      NoSlashRunRest(rel);
      SqueezeTailIdentity(Rest(rel));
    }
  }

  /** For absolute paths without a slash run nothing is squeezed, so cleaning is the RFC's algorithm. */
  lemma CleanIsRfc(path: string)
    requires Absolute(path) && NoSlashRun(path)
    ensures Clean(path) == RemoveDotSegments(path)
  {
    CleanIsRfcOnSqueezed(path);
    assert path == "/" + path[1..];
    assert !RunAt(path, 0);
    NoSlashRunSlice(path, 1, |path|);
    assert path[1..|path|] == path[1..];
    SqueezeTailIdentity(path[1..]);
  }
}
