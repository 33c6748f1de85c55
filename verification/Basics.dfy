/** Types and functions that all modules share. */
module Basics {
  datatype Option<T> = None | Some(value: T)

  newtype Byte = b: int | 0 <= b < 256

  type Bytes = seq<Byte>

  function Min(a: nat, b: nat): nat {
    if a < b then a else b
  }

  function Max(a: nat, b: nat): nat {
    if a < b then b else a
  }

  /** std::copy and std::copy_n: src goes to position at, and what lies before stays. Returns the position after it. */
  method CopyInto<T>(dst: array<T>, at: nat, src: seq<T>) returns (end: nat)
    requires at + |src| <= dst.Length
    modifies dst
    ensures end == at + |src|
    ensures dst[..end] == old(dst[..at]) + src
  {
    ghost var before := dst[..at];
    var i := 0;
    while i < |src|
      invariant 0 <= i <= |src|
      invariant dst[..at + i] == before + src[..i]
    {
      dst[at + i] := src[i];
      i := i + 1;
      assert dst[..at + i] == dst[..at + i - 1] + [src[i - 1]];
    }
    assert src[..i] == src;
    end := at + |src|;
  }
}
