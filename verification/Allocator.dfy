/** lib/allocator.h: BlockAllocator and the string functions that use it. */
module Allocator {
  import opened Basics
  import opened Heap

  /** sizeof(size_t) and sizeof(MemBlock) on a 64-bit target */
  const SIZEOF_SIZE: nat := 8
  const SIZEOF_BLOCK: nat := 32

  /** The bookkeeping that precedes the bytes begin..end of a block. */
  class MemBlock {
    const next: MemBlock?
    const begin: int
    const end: int
    var last: int

    constructor (start: int, size: nat, nxt: MemBlock?)
      ensures begin == last == start && end == start + size && next == nxt
    {
      begin, last, end, next := start, start, start + size, nxt;
    }
  }

  /** One allocation handed out: len bytes at ptr inside block, after an 8-byte header that holds len. */
  datatype Allocation = Allocation(ptr: int, len: nat, block: MemBlock)

  /** The sums alloc and alloc_mem_block form of size do not wrap. */
  predicate Allocatable(size: nat) {
    size + SIZEOF_SIZE + SIZEOF_BLOCK < SIZE_MAX
  }

  /** The size realloc asks for when it moves an allocation of len bytes; doubling may wrap. */
  function GrownSize(len: nat, size: nat): nat {
    Max(size + 1, len * 2 % SIZE_MAX)
  }

  /** What realloc takes: nullptr, or a pointer that alloc or realloc handed out. */
  datatype Pointer = Null | At(addr: int)

  // ---------------------------------------------------------------- the parts of the invariant

  /** The list that starts at first is chain: no block is missing, none is extra, and it ends. */
  predicate Linked(first: MemBlock?, chain: seq<MemBlock>) {
    if chain == [] then first == null else first == chain[0] && Linked(chain[0].next, chain[1..])
  }

  /** Different blocks occupy different memory, bookkeeping included. */
  predicate BlocksApart(chain: seq<MemBlock>) {
    && (forall i | 0 <= i < |chain| :: chain[i].begin <= chain[i].end)
    && forall i, j | 0 <= i < j < |chain| :: chain[i] != chain[j] && DisjointBlocks(chain[i], chain[j])
  }

  predicate DisjointBlocks(b: MemBlock, c: MemBlock) {
    b.end <= c.begin - SIZEOF_BLOCK || c.end <= b.begin - SIZEOF_BLOCK
  }

  /** Header and payload lie inside the block. */
  predicate Within(a: Allocation) {
    a.block.begin <= a.ptr - SIZEOF_SIZE && a.ptr + a.len <= a.block.end
  }

  predicate Disjoint(a: Allocation, b: Allocation) {
    a.ptr + a.len <= b.ptr - SIZEOF_SIZE || b.ptr + b.len <= a.ptr - SIZEOF_SIZE
  }

  predicate AllWithin(allocs: seq<Allocation>, chain: seq<MemBlock>) {
    forall i | 0 <= i < |allocs| :: allocs[i].block in chain && Within(allocs[i])
  }

  predicate AllDisjoint(allocs: seq<Allocation>) {
    forall i, j | 0 <= i < j < |allocs| :: Disjoint(allocs[i], allocs[j])
  }

  /** Every header still holds its allocation's length. */
  predicate AllTagged(allocs: seq<Allocation>, mem: Memory) {
    forall i | 0 <= i < |allocs| :: LoadSize(mem, allocs[i].ptr - SIZEOF_SIZE) == allocs[i].len
  }

  /** The blocks are live arrays of the system heap. */
  predicate AllLive(chain: seq<MemBlock>, live: set<Range>) {
    forall i | 0 <= i < |chain| :: BlockLive(chain[i], live)
  }

  /** The array new[] returned for b: bookkeeping and bytes. */
  function ArrayOf(b: MemBlock): Range
    requires b.begin <= b.end
  {
    Range(b.begin - SIZEOF_BLOCK, SIZEOF_BLOCK + (b.end - b.begin))
  }

  predicate BlockLive(b: MemBlock, live: set<Range>) {
    b.begin <= b.end && ArrayOf(b) in live
  }

  /** The bytes of an allocation */
  function Contents(mem: Memory, a: Allocation): Bytes {
    Load(mem, a.ptr, a.len)
  }

  /** Every allocation of allocs holds the same bytes in both memories. */
  predicate Preserved(allocs: seq<Allocation>, mem: Memory, mem': Memory) {
    forall i | 0 <= i < |allocs| :: Contents(mem', allocs[i]) == Contents(mem, allocs[i])
  }

  /** (p + 0xf) & ~0xf */
  function RoundUp16(p: int): (r: int)
    ensures p <= r < p + 16 && r % 16 == 0
  {
    (p + 15) / 16 * 16
  }

  // ---------------------------------------------------------------- adding one allocation

  /** Room for a new allocation: inside block, and no other allocation of that block reaches it. */
  predicate Room(allocs: seq<Allocation>, a: Allocation) {
    Within(a) && forall i | 0 <= i < |allocs| :: Disjoint(allocs[i], a)
  }

  /** Allocations of different blocks never meet. */
  lemma OtherBlocksDisjoint(allocs: seq<Allocation>, chain: seq<MemBlock>, a: Allocation)
    requires BlocksApart(chain) && AllWithin(allocs, chain) && a.block in chain && Within(a)
    requires forall i | 0 <= i < |allocs| :: allocs[i].block == a.block ==> Disjoint(allocs[i], a)
    ensures Room(allocs, a)
  {
    forall i | 0 <= i < |allocs| ensures Disjoint(allocs[i], a) {
      if allocs[i].block != a.block {
        var m: nat :| m < |chain| && chain[m] == allocs[i].block;
        var n: nat :| n < |chain| && chain[n] == a.block;
        assert if m < n then DisjointBlocks(chain[m], chain[n]) else DisjointBlocks(chain[n], chain[m]);
      }
    }
  }

  /** Writing into a's range (header and payload) disturbs no allocation that is disjoint from it. */
  lemma WriteElsewhere(allocs: seq<Allocation>, mem: Memory, a: Allocation, p: int, data: Bytes)
    requires AllTagged(allocs, mem) && (forall i | 0 <= i < |allocs| :: Disjoint(allocs[i], a))
    requires a.ptr - SIZEOF_SIZE <= p && p + |data| <= a.ptr + a.len
    ensures AllTagged(allocs, Stored(mem, p, data)) && Preserved(allocs, mem, Stored(mem, p, data))
  {
    forall i | 0 <= i < |allocs|
      ensures LoadSize(Stored(mem, p, data), allocs[i].ptr - SIZEOF_SIZE) == allocs[i].len
      ensures Contents(Stored(mem, p, data), allocs[i]) == Contents(mem, allocs[i])
    {
      LoadElsewhere(mem, p, data, allocs[i].ptr - SIZEOF_SIZE, SIZEOF_SIZE);
      LoadElsewhere(mem, p, data, allocs[i].ptr, allocs[i].len);
    }
  }

  /** Tagging a new allocation that has room extends the invariant to it. */
  lemma TagNew(allocs: seq<Allocation>, chain: seq<MemBlock>, mem: Memory, a: Allocation, p: int)
    requires AllWithin(allocs, chain) && AllDisjoint(allocs) && AllTagged(allocs, mem)
    requires a.block in chain && Room(allocs, a) && a.len < SIZE_MAX && p == a.ptr - SIZEOF_SIZE
    ensures var mem' := Stored(mem, p, Encode(a.len, SIZEOF_SIZE));
            && AllWithin(allocs + [a], chain) && AllDisjoint(allocs + [a]) && AllTagged(allocs + [a], mem')
            && Preserved(allocs, mem, mem')
  {
    LoadSizeStored(mem, p, a.len);
    WriteElsewhere(allocs, mem, a, p, Encode(a.len, SIZEOF_SIZE));
  }

  // ---------------------------------------------------------------- BlockAllocator

  class BlockAllocator {
    const heap: SystemHeap
    const blockSize: nat
    const isolationThreshold: nat
    var retain: MemBlock?
    var head: MemBlock?
    /** The blocks on the retain list, newest first. */
    ghost var chain: seq<MemBlock>
    /** Everything alloc has handed out since the last reset. */
    ghost var allocs: seq<Allocation>

    /** Allocations of the current block end before its write position, which may have been rounded past the end. */
    ghost predicate HeadOk()
      reads this, head
    {
      head != null ==>
        && head in chain && head.begin <= head.last
        && forall i | 0 <= i < |allocs| :: allocs[i].block == head ==> allocs[i].ptr + allocs[i].len <= head.last
    }

    /** What does not depend on the bytes in memory. */
    ghost predicate Placed()
      reads this, heap`live
    {
      && isolationThreshold <= blockSize && SIZEOF_BLOCK + blockSize < SIZE_MAX
      && Linked(retain, chain)
      && BlocksApart(chain) && AllLive(chain, heap.live)
      && AllWithin(allocs, chain) && AllDisjoint(allocs)
    }

    /** All of the invariant but the write position. */
    ghost predicate Sound()
      reads this, heap
    {
      Placed() && AllTagged(allocs, heap.mem)
    }

    ghost predicate Valid()
      reads this, heap, head
    {
      Sound() && HeadOk()
    }

    constructor (h: SystemHeap, size: nat, threshold: nat)
      requires threshold <= size && SIZEOF_BLOCK + size < SIZE_MAX
      ensures Valid() && heap == h && blockSize == size && isolationThreshold == threshold
      ensures chain == [] && allocs == []
    {
      heap, blockSize, isolationThreshold := h, size, threshold;
      retain, head := null, null;
      chain, allocs := [], [];
    }

    /** alloc_mem_block */
    method AllocMemBlock(size: nat) returns (mb: MemBlock)
      requires Valid() && SIZEOF_BLOCK + size < SIZE_MAX
      modifies this`retain, this`chain, heap`live
      ensures Valid() && fresh(mb)
      ensures chain == [mb] + old(chain) && mb.end - mb.begin == size && mb.last == mb.begin && head == old(head)
      ensures forall i | 0 <= i < |allocs| :: allocs[i].block != mb
    {
      var block := heap.New(SIZEOF_BLOCK + size);
      mb := new MemBlock(block + SIZEOF_BLOCK, size, retain);
      NewBlockApart(chain, mb, old(heap.live));
      retain := mb;
      chain := [mb] + chain;
    }

    /** The length alloc(size) stores. */
    function StoredLength(size: nat): (len: nat)
      ensures size <= len
    {
      if size + SIZEOF_SIZE >= isolationThreshold then Max(16, size) else size
    }

    /** A request of at least the threshold gets a block of its own. */
    method AllocIsolated(size: nat) returns (ptr: int)
      requires Valid() && Allocatable(size)
      modifies this`retain, this`chain, this`allocs, heap
      ensures Valid() && head == old(head)
      ensures |allocs| == |old(allocs)| + 1 && allocs[..|old(allocs)|] == old(allocs)
      ensures var a := allocs[|old(allocs)|]; a.ptr == ptr && a.len == Max(16, size)
      ensures Preserved(old(allocs), old(heap.mem), heap.mem)
      ensures |chain| == |old(chain)| + 1 && chain[1..] == old(chain)
    {
      var len := if size < 16 then 16 else size;
      var mb := AllocMemBlock(len + SIZEOF_SIZE);
      ptr := mb.begin + SIZEOF_SIZE;
      OtherBlocksDisjoint(allocs, chain, Allocation(ptr, len, mb));
      Tag(ptr, len, mb);
      mb.last := mb.end;
    }

    /** Cuts size bytes and a header from the current block, which has room for them. */
    method AllocFromHead(size: nat) returns (ptr: int)
      requires Valid() && size < SIZE_MAX && head != null && size + SIZEOF_SIZE <= head.end - head.last
      modifies this`allocs, heap`mem, head`last
      ensures Valid()
      ensures |allocs| == |old(allocs)| + 1 && allocs[..|old(allocs)|] == old(allocs)
      ensures var a := allocs[|old(allocs)|]; a.ptr == ptr && a.len == size
      ensures Preserved(old(allocs), old(heap.mem), heap.mem)
    {
      ptr := head.last + SIZEOF_SIZE;
      OtherBlocksDisjoint(allocs, chain, Allocation(ptr, size, head));
      Tag(ptr, size, head);
      head.last := RoundUp16(ptr + size);
    }

    /** alloc */
    method Alloc(size: nat) returns (ptr: int)
      requires Valid() && Allocatable(size)
      modifies this, heap, head
      ensures Valid()
      ensures |allocs| == |old(allocs)| + 1 && allocs[..|old(allocs)|] == old(allocs)
      ensures var a := allocs[|old(allocs)|]; a.ptr == ptr && a.len == StoredLength(size)
      ensures Preserved(old(allocs), old(heap.mem), heap.mem)
      ensures chain == old(chain) || (|chain| == |old(chain)| + 1 && chain[1..] == old(chain))
      ensures head == old(head) || (head != null && fresh(head))
    {
      if size + SIZEOF_SIZE >= isolationThreshold {
        ptr := AllocIsolated(size);
        return;
      }
      if head == null || head.end - head.last < size + SIZEOF_SIZE {
        var mb := AllocMemBlock(blockSize);
        head := mb;
      }
      ptr := AllocFromHead(size);
    }

    /** Stores len in the header before ptr; from here on the allocation counts as handed out. */
    method Tag(ptr: int, len: nat, mb: MemBlock)
      requires Sound() && mb in chain && len < SIZE_MAX
      requires Room(allocs, Allocation(ptr, len, mb))
      modifies this`allocs, heap`mem
      ensures Sound()
      ensures allocs == old(allocs) + [Allocation(ptr, len, mb)]
      ensures Preserved(old(allocs), old(heap.mem), heap.mem)
    {
      BlockInside(chain, heap.live, mb, ptr - SIZEOF_SIZE, SIZEOF_SIZE);
      TagNew(allocs, chain, heap.mem, Allocation(ptr, len, mb), ptr - SIZEOF_SIZE);
      heap.Store(ptr - SIZEOF_SIZE, Encode(len, SIZEOF_SIZE));
      allocs := allocs + [Allocation(ptr, len, mb)];
    }

    /** reset: walks the retain list and gives every block back exactly once. */
    method Reset()
      requires Valid()
      modifies this, heap`live
      ensures Valid() && retain == head == null && chain == [] && allocs == []
      ensures heap.live == old(heap.live) - Arrays(old(chain))
    {
      var mb := retain;
      ghost var n, blocks := 0, chain;
      while mb != null
        invariant 0 <= n <= |blocks| && Linked(mb, blocks[n..])
        invariant heap.live == old(heap.live) - Arrays(blocks[..n])
        decreases |blocks| - n
      {
        var next := mb.next;
        DeleteOne(blocks, old(heap.live), n);
        assert blocks[n..][1..] == blocks[n + 1..];
        heap.Delete(Range(mb.begin - SIZEOF_BLOCK, SIZEOF_BLOCK + (mb.end - mb.begin)));
        mb := next;
        n := n + 1;
      }
      assert blocks[..n] == blocks;
      retain, head := null, null;
      chain, allocs := [], [];
    }

    /** get_alloc_length, for a pointer that alloc handed out */
    method GetAllocLength(ptr: int, ghost k: nat) returns (len: nat)
      requires Valid() && k < |allocs| && allocs[k].ptr == ptr
      ensures len == allocs[k].len
    {
      len := LoadSize(heap.mem, ptr - SIZEOF_SIZE);
    }

    /** A write of data at offset off of allocation k, within its length. */
    method Write(ghost k: nat, p: int, off: nat, data: Bytes)
      requires Valid() && k < |allocs| && allocs[k].ptr == p && off + |data| <= allocs[k].len
      modifies heap`mem
      ensures Valid() && heap.mem == Stored(old(heap.mem), p + off, data)
      ensures Preserved(Others(allocs, k), old(heap.mem), heap.mem)
    {
      ghost var mem := heap.mem;
      var at := p + off;
      assert Inside(heap.live, at, |data|) by { BlockInside(chain, heap.live, allocs[k].block, at, |data|); }
      heap.Store(at, data);
      assert AllTagged(allocs, heap.mem) && Preserved(Others(allocs, k), mem, heap.mem) by {
        WriteOwn(allocs, mem, k, at, data);
      }
    }

    /**
      realloc. k is the allocation ptr points to, if any; r is the one the result points to. Every earlier allocation
      keeps its bytes, ptr's own included, and the result starts with ptr's bytes.
    */
    method Realloc(ptr: Pointer, ghost k: nat, size: nat) returns (res: int, ghost r: nat)
      requires Valid() && (ptr.At? ==> k < |allocs| && allocs[k].ptr == ptr.addr)
      requires if ptr.Null? then Allocatable(size) else size > allocs[k].len ==> Allocatable(GrownSize(allocs[k].len, size))
      modifies this, heap, head
      ensures Valid() && |old(allocs)| <= |allocs| && allocs[..|old(allocs)|] == old(allocs)
      ensures Preserved(old(allocs), old(heap.mem), heap.mem)
      ensures r < |allocs| && allocs[r].ptr == res && size <= allocs[r].len
      ensures if ptr.At? && size <= old(allocs)[k].len then r == k && allocs == old(allocs) && heap.mem == old(heap.mem)
              else r == |old(allocs)| && |allocs| == r + 1
      ensures ptr.At? ==> Load(heap.mem, res, old(allocs)[k].len) == Contents(old(heap.mem), old(allocs)[k])
      ensures head == old(head) || (head != null && fresh(head))
    {
      if ptr.Null? {
        r := |allocs|;
        res := Alloc(size);
        return;
      }
      var alloclen := GetAllocLength(ptr.addr, k);
      if size <= alloclen {
        return ptr.addr, k;
      }
      ghost var before, mem0 := allocs, heap.mem;
      res := Alloc(GrownSize(alloclen, size));
      r := |before|;
      assert allocs[k] == before[k];
      ghost var mem1 := heap.mem;
      Write(r, res, 0, Load(heap.mem, ptr.addr, alloclen));
      assert Load(heap.mem, res, alloclen) == Load(mem1, ptr.addr, alloclen) by {
        LoadStored(mem1, res, Load(mem1, ptr.addr, alloclen));
      }
      assert Preserved(before, mem0, heap.mem) by { PreservedTwice(before, allocs, mem0, mem1, heap.mem); }
    }
  }

  lemma BlockInside(chain: seq<MemBlock>, live: set<Range>, mb: MemBlock, p: int, n: nat)
    requires AllLive(chain, live) && mb in chain && mb.begin <= p && p + n <= mb.end
    ensures Inside(live, p, n)
  {
    var i: nat :| i < |chain| && chain[i] == mb;
    assert BlockLive(chain[i], live);
    assert ArrayOf(mb) in live;
  }

  /** A block placed where no live array is stands apart from every block of the chain. */
  lemma NewBlockApart(chain: seq<MemBlock>, mb: MemBlock, live: set<Range>)
    requires BlocksApart(chain) && AllLive(chain, live) && mb.begin <= mb.end && mb !in chain
    requires FreeFrom(live, ArrayOf(mb))
    ensures BlocksApart([mb] + chain) && AllLive([mb] + chain, live + {ArrayOf(mb)})
  {
    forall i | 0 <= i < |chain| ensures DisjointBlocks(mb, chain[i]) && BlockLive(chain[i], live + {ArrayOf(mb)}) {
      assert BlockLive(chain[i], live);
      assert Apart(ArrayOf(mb), ArrayOf(chain[i]));
    }
  }

  /** The arrays behind the blocks of chain. */
  ghost function Arrays(chain: seq<MemBlock>): set<Range>
    requires forall i | 0 <= i < |chain| :: chain[i].begin <= chain[i].end
  {
    set i | 0 <= i < |chain| :: ArrayOf(chain[i])
  }

  /** The next block's array is still live when the ones before it are gone. */
  lemma DeleteOne(chain: seq<MemBlock>, live: set<Range>, n: nat)
    requires BlocksApart(chain) && AllLive(chain, live) && n < |chain|
    ensures ArrayOf(chain[n]) in live - Arrays(chain[..n])
    ensures live - Arrays(chain[..n]) - {ArrayOf(chain[n])} == live - Arrays(chain[..n + 1])
  {
    assert BlockLive(chain[n], live);
    forall i | 0 <= i < n ensures ArrayOf(chain[i]) != ArrayOf(chain[n]) {
      assert DisjointBlocks(chain[i], chain[n]);
    }
    assert Arrays(chain[..n + 1]) == Arrays(chain[..n]) + {ArrayOf(chain[n])} by {
      assert chain[..n + 1][n] == chain[n];
      forall i | 0 <= i < n ensures chain[..n + 1][i] == chain[..n][i] {}
    }
  }

  /** All allocations but number k. */
  ghost function Others(allocs: seq<Allocation>, k: nat): seq<Allocation>
    requires k < |allocs|
  {
    allocs[..k] + allocs[k + 1..]
  }

  /** A write inside allocation k keeps all headers and all other allocations' bytes. */
  lemma WriteOwn(allocs: seq<Allocation>, mem: Memory, k: nat, p: int, data: Bytes)
    requires AllDisjoint(allocs) && AllTagged(allocs, mem) && k < |allocs|
    requires allocs[k].ptr <= p && p + |data| <= allocs[k].ptr + allocs[k].len
    ensures AllTagged(allocs, Stored(mem, p, data)) && Preserved(Others(allocs, k), mem, Stored(mem, p, data))
  {
    var mem' := Stored(mem, p, data);
    forall i | 0 <= i < |allocs|
      ensures LoadSize(mem', allocs[i].ptr - SIZEOF_SIZE) == allocs[i].len
      ensures i != k ==> Contents(mem', allocs[i]) == Contents(mem, allocs[i])
    {
      if i < k { assert Disjoint(allocs[i], allocs[k]); }
      if k < i { assert Disjoint(allocs[k], allocs[i]); }
      LoadElsewhere(mem, p, data, allocs[i].ptr - SIZEOF_SIZE, SIZEOF_SIZE);
      if i != k { LoadElsewhere(mem, p, data, allocs[i].ptr, allocs[i].len); }
    }
  }

  /** Preserved by the allocation, and then by the copy into the new last allocation. */
  lemma PreservedTwice(before: seq<Allocation>, allocs: seq<Allocation>, mem0: Memory, mem1: Memory, mem2: Memory)
    requires |allocs| == |before| + 1 && allocs[..|before|] == before
    requires Preserved(before, mem0, mem1) && Preserved(Others(allocs, |before|), mem1, mem2)
    ensures Preserved(before, mem0, mem2)
  {
    assert Others(allocs, |before|) == before;
  }
}
