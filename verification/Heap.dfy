/** Raw memory and the system allocator (operator new[] and delete[]) under BlockAllocator. */
module Heap {
  import opened Basics

  type Memory = int -> Byte

  /** n bytes from address p */
  function Load(mem: Memory, p: int, n: nat): (r: Bytes)
    ensures |r| == n
    ensures forall i | 0 <= i < n :: r[i] == mem(p + i)
  {
    seq(n, i => mem(p + i))
  }

  /** mem after data has been written at p */
  function Stored(mem: Memory, p: int, data: Bytes): (r: Memory) {
    (a: int) => if p <= a < p + |data| then data[a - p] else mem(a)
  }

  lemma LoadStored(mem: Memory, p: int, data: Bytes)
    ensures Load(Stored(mem, p, data), p, |data|) == data
  {
  }

  /** Bytes outside the written range are untouched. */
  lemma LoadElsewhere(mem: Memory, p: int, data: Bytes, q: int, n: nat)
    requires q + n <= p || p + |data| <= q
    ensures Load(Stored(mem, p, data), q, n) == Load(mem, q, n)
  {
  }

  /** A longer load starts with the shorter one. */
  lemma LoadSplit(mem: Memory, p: int, m: nat, n: nat)
    ensures Load(mem, p, m + n) == Load(mem, p, m) + Load(mem, p + m, n)
  {
  }

  // ---------------------------------------------------------------- size_t fields in memory

  /** One past the largest size_t of a 64-bit target: sums that reach it wrap. */
  const SIZE_MAX: nat := 0x1_0000_0000_0000_0000

  /** The little-endian bytes of n */
  function Encode(n: nat, k: nat): (r: Bytes)
    ensures |r| == k
  {
    if k == 0 then [] else [(n % 256) as Byte] + Encode(n / 256, k - 1)
  }

  function Decode(s: Bytes): nat {
    if s == [] then 0 else s[0] as nat + 256 * Decode(s[1..])
  }

  function Pow256(k: nat): (r: nat)
    ensures r > 0
  {
    if k == 0 then 1 else 256 * Pow256(k - 1)
  }

  lemma {:induction false} DecodeEncode(n: nat, k: nat)
    requires n < Pow256(k)
    ensures Decode(Encode(n, k)) == n
  {
    if k > 0 {
      assert n / 256 < Pow256(k - 1);
      DecodeEncode(n / 256, k - 1);
      assert Encode(n, k)[1..] == Encode(n / 256, k - 1);
    }
  }

  /** A size_t at address p */
  function LoadSize(mem: Memory, p: int): nat {
    Decode(Load(mem, p, 8))
  }

  lemma SizeMax()
    ensures Pow256(8) == SIZE_MAX
  {
    assert Pow256(2) == 0x1_0000;
    assert Pow256(4) == 0x1_0000_0000;
    assert Pow256(6) == 0x1_0000_0000_0000;
  }

  lemma LoadSizeStored(mem: Memory, p: int, n: nat)
    requires n < SIZE_MAX
    ensures LoadSize(Stored(mem, p, Encode(n, 8)), p) == n
  {
    SizeMax();
    LoadStored(mem, p, Encode(n, 8));
    DecodeEncode(n, 8);
  }

  // ---------------------------------------------------------------- operator new[] and delete[]

  /** An array of size bytes at address at. */
  datatype Range = Range(at: int, size: nat)

  predicate Apart(r: Range, q: Range) {
    r.at + r.size <= q.at || q.at + q.size <= r.at
  }

  /** r touches no live array. */
  predicate FreeFrom(live: set<Range>, r: Range) {
    r !in live && forall q | q in live :: Apart(r, q)
  }

  /** The n bytes at p lie inside one live array. */
  predicate Inside(live: set<Range>, p: int, n: nat) {
    exists r | r in live :: r.at <= p && p + n <= r.at + r.size
  }

  /** There is always room past every live array. */
  lemma {:induction false} SomeFree(live: set<Range>) returns (at: int)
    ensures forall q | q in live :: q.at + q.size < at
  {
    if live == {} {
      at := 0;
    } else {
      var q :| q in live;
      var rest := live - {q};
      at := SomeFree(rest);
      if at <= q.at + q.size { at := q.at + q.size + 1; }
      forall r | r in live ensures r.at + r.size < at { assert r == q || r in rest; }
    }
  }

  class SystemHeap {
    var mem: Memory
    /** The arrays allocated and not yet deleted. */
    var live: set<Range>

    constructor (m: Memory)
      ensures mem == m && live == {}
    {
      mem := m;
      live := {};
    }

    /** new uint8_t[n]: any address whose range no live array touches. */
    method New(n: nat) returns (at: int)
      requires n < SIZE_MAX
      modifies this`live
      ensures FreeFrom(old(live), Range(at, n))
      ensures live == old(live) + {Range(at, n)}
    {
      ghost var past := SomeFree(live);
      assert FreeFrom(live, Range(past, n));
      at :| FreeFrom(live, Range(at, n));
      live := live + {Range(at, n)};
    }

    /** delete[]: only of a live array, so deleting twice is an error. */
    method Delete(r: Range)
      requires r in live
      modifies this`live
      ensures live == old(live) - {r}
    {
      live := live - {r};
    }

    /** A write through a pointer, which must stay inside one live array. */
    method Store(p: int, data: Bytes)
      requires Inside(live, p, |data|)
      modifies this`mem
      ensures mem == Stored(old(mem), p, data)
    {
      mem := Stored(mem, p, data);
    }
  }
}
