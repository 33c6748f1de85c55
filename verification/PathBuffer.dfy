/**
  lib/http2.cc's path_join as it runs: one buffer, a write position p and a read position first. The buffer bounds
  that Dafny checks at every index are the source's memory-safety obligations, and `assert buf[p] == '/'` in
  EatDirInPlace is the source's own assertion.
*/
module PathBuffer {
  import opened Basics
  import opened Text
  import opened PathClean

  /** eat_file over buf[..last]: returns the new write position. */
  method EatFileInPlace(buf: array<char>, last: nat) returns (p: nat)
    requires 0 < buf.Length && last <= buf.Length
    modifies buf
    ensures 1 <= p <= buf.Length && (p <= last || p == 1)
    ensures buf[..p] == EatFile(old(buf[..last]))
  {
    if last == 0 {
      buf[0] := '/';
      return 1;
    }
    if buf[last - 1] == '/' {
      return last;
    }
    p := last;
    ghost var was := buf[..last];
    while p != 0 && buf[p - 1] != '/'
      invariant 0 <= p <= last
      invariant buf[..last] == was
      invariant EatFile(buf[..p]) == EatFile(was)
      decreases p
    {
      assert buf[..p][..p - 1] == buf[..p - 1];
      p := p - 1;
    }
    if p == 0 {
      buf[0] := '/';
      return 1;
    }
  }

  /** eat_dir over buf[..last] */
  method EatDirInPlace(buf: array<char>, last: nat) returns (p: nat)
    requires 0 < buf.Length && last <= buf.Length
    modifies buf
    ensures 1 <= p <= buf.Length && (p <= last || p == 1)
    ensures buf[..p] == EatDir(old(buf[..last]))
  {
    p := EatFileInPlace(buf, last);
    ghost var eaten := buf[..p];
    p := p - 1;
    assert buf[p] == '/' by { assert buf[p] == eaten[p]; }
    assert buf[..p] == eaten[..p];
    p := EatFileInPlace(buf, p);
  }

  /** The for loops that step over a run of slashes. */
  method SkipRun(s: string, from: nat) returns (first: nat)
    requires from <= |s|
    ensures from <= first <= |s|
    ensures s[first..] == SkipSlashes(s[from..])
  {
    first := from;
    while first != |s| && s[first] == '/'
      invariant from <= first <= |s|
      invariant SkipSlashes(s[first..]) == SkipSlashes(s[from..])
      decreases |s| - first
    {
      assert s[first..][1..] == s[first + 1..];
      first := first + 1;
    }
  }

  /** The size path_join asks its allocator for. */
  function BufferSize(basePath: string, baseQuery: string, relPath: string, relQuery: string): nat {
    Max(1, |basePath|) + |relPath| + 1 + Max(|baseQuery|, |relQuery|) + 1
  }

  /** W(out, left) is Walk(out, left), known only by what one turn of the loop does to it. */
  ghost predicate IsWalk(W: (string, string) -> string) {
    forall out: string, left: string :: Turn(W, out, left)
  }

  predicate Turn(W: (string, string) -> string, out: string, left: string) {
    out != "" ==>
      W(out, left) ==
        if left == "" || IsDot(left) then out
        else if DotSlash(left) then W(out, left[2..])
        else if IsDotDot(left) then EatDir(out)
        else if DotDotSlash(left) then W(EatDir(out), left[3..])
        else W(Directory(out) + Copied(left), SkipSlashes(Rest(left)))
  }

  function WalkOf(out: string, left: string): string {
    if out == "" then "" else Walk(out, left)
  }

  lemma WalkOfTurn(out: string, left: string)
    ensures Turn(WalkOf, out, left)
  {
  }

  /** The main loop, from read position start and with buf[..p0] already written. */
  method WalkInPlace(buf: array<char>, p0: nat, rel: string, start: nat) returns (p: nat)
    requires 1 <= p0 && start <= |rel| && p0 + (|rel| - start) <= buf.Length
    modifies buf
    ensures 1 <= p && p <= p0 + (|rel| - start)
    ensures buf[..p] == Walk(old(buf[..p0]), rel[start..])
  {
    forall out: string, left: string ensures Turn(WalkOf, out, left) { WalkOfTurn(out, left); }
    p := WalkLoop(buf, p0, rel, start, WalkOf);
  }

  method WalkLoop(buf: array<char>, p0: nat, rel: string, start: nat, ghost W: (string, string) -> string)
    returns (p: nat)
    requires 1 <= p0 && start <= |rel| && p0 + (|rel| - start) <= buf.Length && IsWalk(W)
    modifies buf
    ensures 1 <= p && p <= p0 + (|rel| - start)
    ensures buf[..p] == W(old(buf[..p0]), rel[start..])
  {
    p := p0;
    var first := start;
    ghost var result := W(buf[..p], rel[start..]);
    while first != |rel|
      invariant start <= first <= |rel| && 1 <= p && p + (|rel| - first) <= p0 + (|rel| - start)
      invariant W(buf[..p], rel[first..]) == result
      decreases |rel| - first
    {
      ghost var left := rel[first..];
      assert Turn(W, buf[..p], left);
      if rel[first] == '.' {
        if first + 1 == |rel| {
          return;
        }
        if rel[first + 1] == '/' {
          assert rel[first + 2..] == left[2..];
          first := first + 2;
          continue;
        }
        if rel[first + 1] == '.' {
          if first + 2 == |rel| {
            p := EatDirInPlace(buf, p);
            return;
          }
          if rel[first + 2] == '/' {
            assert rel[first + 3..] == left[3..];
            p := EatDirInPlace(buf, p);
            first := first + 3;
            continue;
          }
        }
      }
      p, first := CopySegment(buf, p, rel, first);
    }
    assert Turn(W, buf[..p], rel[first..]);
  }

  /** The body's last part: drop a leftover file name, copy one ordinary segment, step over the slashes after it. */
  method CopySegment(buf: array<char>, p0: nat, rel: string, start: nat) returns (p: nat, first: nat)
    requires 1 <= p0 && start < |rel| && p0 + (|rel| - start) <= buf.Length
    modifies buf
    ensures start < first <= |rel| && 1 <= p && p + (|rel| - first) <= p0 + (|rel| - start)
    ensures buf[..p] == Directory(old(buf[..p0])) + Copied(rel[start..])
    ensures rel[first..] == SkipSlashes(Rest(rel[start..]))
  {
    p := DropFile(buf, p0);
    var end;
    end, first := NextSegment(rel, start);
    p := CopyInto(buf, p, rel[start..end]);
  }

  /** Where the segment at start ends, with its slash if it has one, and where the next one starts. */
  method NextSegment(rel: string, start: nat) returns (end: nat, first: nat)
    requires start < |rel|
    ensures start < end <= first <= |rel|
    ensures rel[start..end] == Copied(rel[start..]) && rel[first..] == SkipSlashes(Rest(rel[start..]))
  {
    var k := Find(rel[start..], '/');
    CopiedIs(rel, start);
    if start + k == |rel| {
      end, first := |rel|, |rel|;
    } else {
      end := start + k + 1;
      first := SkipRun(rel, end);
    }
  }

  /** A leftover file name goes before a segment is copied. */
  method DropFile(buf: array<char>, p0: nat) returns (p: nat)
    requires 1 <= p0 <= buf.Length
    modifies buf
    ensures 1 <= p <= p0
    ensures buf[..p] == Directory(old(buf[..p0]))
  {
    p := p0;
    if buf[p - 1] != '/' {
      p := EatFileInPlace(buf, p);
    }
  }

  lemma CopiedIs(rel: string, start: nat)
    requires start <= |rel|
    ensures var left := rel[start..]; var k := Find(left, '/');
            if start + k == |rel| then Copied(left) == rel[start..|rel|] && rel[|rel|..] == SkipSlashes(Rest(left))
            else Copied(left) == rel[start..start + k + 1] && Rest(left) == rel[start + k + 1..]
  {
    var left := rel[start..];
    var k := Find(left, '/');
    if k < |left| {
      assert rel[start..start + k + 1] == left[..k + 1];
      assert rel[start + k + 1..] == left[k + 1..];
    } else {
      assert rel[|rel|..] == "" == SkipSlashes(Rest(left));
    }
  }

  /** What one turn at an ordinary segment copies: the segment and the slash that ends it, if any. */
  function Copied(left: string): string {
    var k := Find(left, '/');
    if k == |left| then left else left[..k + 1]
  }

  /** The first bytes written: the base path, or a slash when there is none. */
  method PutBase(buf: array<char>, basePath: string) returns (p: nat)
    requires Max(1, |basePath|) <= buf.Length
    modifies buf
    ensures p == Max(1, |basePath|)
    ensures buf[..p] == if basePath == "" then "/" else basePath
  {
    p := CopyInto(buf, 0, if basePath == "" then "/" else basePath);
  }

  method PutQuery(buf: array<char>, p: nat, query: string) returns (q: nat)
    requires p + 1 + |query| <= buf.Length
    modifies buf
    ensures p <= q <= p + 1 + |query|
    ensures buf[..q] == WithQuery(old(buf[..p]), query)
  {
    q := p;
    if query != "" {
      q := CopyInto(buf, q, "?");
      q := CopyInto(buf, q, query);
    }
  }

  method Terminate(buf: array<char>, len: nat)
    requires len < buf.Length
    modifies buf
    ensures buf[..len] == old(buf[..len]) && buf[len] == '\0'
  {
    buf[len] := '\0';
  }

  /** path_join: a NUL-terminated buffer that holds Join of the arguments, whatever they are. */
  method PathJoin(basePath: string, baseQuery: string, relPath: string, relQuery: string)
    returns (buf: array<char>, len: nat)
    ensures fresh(buf) && buf.Length == BufferSize(basePath, baseQuery, relPath, relQuery)
    ensures len < buf.Length && buf[len] == '\0'
    ensures buf[..len] == Join(basePath, baseQuery, relPath, relQuery)
  {
    buf := new char[BufferSize(basePath, baseQuery, relPath, relQuery)];
    if relPath == "" {
      len := PutBase(buf, basePath);
      len := PutQuery(buf, len, if relQuery == "" then baseQuery else relQuery);
    } else {
      var first := 0;
      if relPath[0] == '/' {
        len := PutBase(buf, "");
        first := SkipRun(relPath, 1);
      } else {
        len := PutBase(buf, basePath);
        assert relPath[0..] == relPath;
      }
      len := WalkInPlace(buf, len, relPath, first);
      len := PutQuery(buf, len, relQuery);
    }
    Terminate(buf, len);
  }
}
