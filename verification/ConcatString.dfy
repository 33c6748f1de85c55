/** lib/allocator.h: concat_string_ref and realloc_concat_string_ref, and chains of the latter. */
module ConcatString {
  import opened Basics
  import opened Heap
  import opened Allocator

  /** A reference to len bytes at base; a default-constructed one is empty. */
  datatype StringRef = StringRef(base: int, len: nat)

  /** The arguments one after the other */
  function Flatten(args: seq<Bytes>): Bytes {
    if args == [] then [] else args[0] + Flatten(args[1..])
  }

  /** concat_string_ref_count */
  function Count(acc: nat, args: seq<Bytes>): (n: nat)
    ensures n == acc + |Flatten(args)|
    decreases |args|
  {
    if args == [] then acc else Count(acc + |args[0]|, args[1..])
  }

  /** A text of n bytes and its NUL can be allocated, also when realloc doubles an allocation that is too short for it. */
  predicate Fits(n: nat) {
    Allocatable(2 * (n + 1))
  }

  /** value is the NUL-terminated text at the start of allocation k. */
  ghost predicate HoldsText(alloc: BlockAllocator, value: StringRef, k: nat, text: Bytes)
    reads alloc, alloc.heap
  {
    && k < |alloc.allocs| && alloc.allocs[k].ptr == value.base
    && value.len == |text| < alloc.allocs[k].len
    && Load(alloc.heap.mem, value.base, value.len) == text
    && alloc.heap.mem(value.base + value.len) == 0
  }

  /** concat_string_ref_copy and the final NUL: text, already there, is followed by args. */
  method CopyArgs(alloc: BlockAllocator, ghost k: nat, dst: int, at: nat, args: seq<Bytes>, ghost text: Bytes)
    requires alloc.Valid() && k < |alloc.allocs| && alloc.allocs[k].ptr == dst
    requires at == |text| && at + |Flatten(args)| < alloc.allocs[k].len && Load(alloc.heap.mem, dst, at) == text
    modifies alloc.heap`mem
    ensures alloc.Valid()
    ensures HoldsText(alloc, StringRef(dst, at + |Flatten(args)|), k, text + Flatten(args))
    ensures Preserved(Others(alloc.allocs, k), old(alloc.heap.mem), alloc.heap.mem)
    decreases |args|
  {
    ghost var mem0 := alloc.heap.mem;
    if args == [] {
      CopyNul(alloc, k, dst, at, text);
      assert text + Flatten(args) == text;
    } else {
      CopyOne(alloc, k, dst, at, args[0], text);
      ghost var mem1 := alloc.heap.mem;
      ghost var rest := Flatten(args[1..]);
      assert Flatten(args) == args[0] + rest && text + args[0] + rest == text + (args[0] + rest);
      CopyArgs(alloc, k, dst, at + |args[0]|, args[1..], text + args[0]);
      PreservedTrans(Others(alloc.allocs, k), mem0, mem1, alloc.heap.mem);
    }
  }

  method CopyNul(alloc: BlockAllocator, ghost k: nat, dst: int, at: nat, ghost text: Bytes)
    requires alloc.Valid() && k < |alloc.allocs| && alloc.allocs[k].ptr == dst
    requires at == |text| < alloc.allocs[k].len && Load(alloc.heap.mem, dst, at) == text
    modifies alloc.heap`mem
    ensures alloc.Valid() && HoldsText(alloc, StringRef(dst, at), k, text)
    ensures Preserved(Others(alloc.allocs, k), old(alloc.heap.mem), alloc.heap.mem)
  {
    LoadElsewhere(alloc.heap.mem, dst + at, [0], dst, at);
    alloc.Write(k, dst, at, [0]);
  }

  method CopyOne(alloc: BlockAllocator, ghost k: nat, dst: int, at: nat, arg: Bytes, ghost text: Bytes)
    requires alloc.Valid() && k < |alloc.allocs| && alloc.allocs[k].ptr == dst
    requires at == |text| && at + |arg| <= alloc.allocs[k].len && Load(alloc.heap.mem, dst, at) == text
    modifies alloc.heap`mem
    ensures alloc.Valid() && Load(alloc.heap.mem, dst, at + |arg|) == text + arg
    ensures Preserved(Others(alloc.allocs, k), old(alloc.heap.mem), alloc.heap.mem)
  {
    WriteExtends(alloc.heap.mem, dst, at, arg);
    alloc.Write(k, dst, at, arg);
  }

  lemma WriteExtends(mem: Memory, p: int, n: nat, data: Bytes)
    ensures Load(Stored(mem, p + n, data), p, n + |data|) == Load(mem, p, n) + data
  {
    LoadSplit(Stored(mem, p + n, data), p, n, |data|);
    LoadElsewhere(mem, p + n, data, p, n);
    LoadStored(mem, p + n, data);
  }

  lemma PreservedTrans(allocs: seq<Allocation>, mem0: Memory, mem1: Memory, mem2: Memory)
    requires Preserved(allocs, mem0, mem1) && Preserved(allocs, mem1, mem2)
    ensures Preserved(allocs, mem0, mem2)
  {
  }

  /** concat_string_ref */
  method Concat(alloc: BlockAllocator, args: seq<Bytes>) returns (r: StringRef, ghost k: nat)
    requires alloc.Valid() && Fits(|Flatten(args)|)
    modifies alloc, alloc.heap, alloc.head
    ensures alloc.Valid() && k == |old(alloc.allocs)| && |alloc.allocs| == k + 1 && alloc.allocs[..k] == old(alloc.allocs)
    ensures HoldsText(alloc, r, k, Flatten(args))
    ensures Preserved(old(alloc.allocs), old(alloc.heap.mem), alloc.heap.mem)
    ensures alloc.head == old(alloc.head) || (alloc.head != null && fresh(alloc.head))
  {
    ghost var before, mem0 := alloc.allocs, alloc.heap.mem;
    var len := Count(0, args);
    var dst := alloc.Alloc(len + 1);
    k := |before|;
    ghost var mem1 := alloc.heap.mem;
    CopyArgs(alloc, k, dst, 0, args, []);
    assert [] + Flatten(args) == Flatten(args);
    PreservedTwice(before, alloc.allocs, mem0, mem1, alloc.heap.mem);
    r := StringRef(dst, len);
  }

  /** Every allocation but number j keeps its bytes. */
  predicate KeptBut(allocs: seq<Allocation>, j: int, mem: Memory, mem': Memory) {
    forall i | 0 <= i < |allocs| && i != j :: Contents(mem', allocs[i]) == Contents(mem, allocs[i])
  }

  /**
    realloc_concat_string_ref: value followed by args, grown in place or moved. Every other allocation keeps its bytes,
    and the text value referred to is still where it was.
  */
  method ReallocConcat(alloc: BlockAllocator, value: StringRef, ghost j: nat, ghost text: Bytes, args: seq<Bytes>)
    returns (r: StringRef, ghost k: nat)
    requires alloc.Valid() && Fits(|text| + |Flatten(args)|)
    requires if value.len == 0 then text == [] else HoldsText(alloc, value, j, text)
    modifies alloc, alloc.heap, alloc.head
    ensures alloc.Valid() && |old(alloc.allocs)| <= |alloc.allocs|
    ensures alloc.allocs[..|old(alloc.allocs)|] == old(alloc.allocs)
    ensures HoldsText(alloc, r, k, text + Flatten(args))
    ensures k == |old(alloc.allocs)| || (value.len > 0 && k == j)
    ensures KeptBut(old(alloc.allocs), if value.len == 0 then -1 else j, old(alloc.heap.mem), alloc.heap.mem)
    ensures value.len > 0 ==> Load(alloc.heap.mem, value.base, value.len) == text
    ensures alloc.head == old(alloc.head) || (alloc.head != null && fresh(alloc.head))
  {
    if value.len == 0 {
      r, k := Concat(alloc, args);
      assert text + Flatten(args) == Flatten(args);
    } else {
      r, k := GrowConcat(alloc, value, j, text, args);
    }
  }

  /** The same, when there is a text to grow. */
  method GrowConcat(alloc: BlockAllocator, value: StringRef, ghost j: nat, ghost text: Bytes, args: seq<Bytes>)
    returns (r: StringRef, ghost k: nat)
    requires alloc.Valid() && Fits(|text| + |Flatten(args)|) && HoldsText(alloc, value, j, text)
    modifies alloc, alloc.heap, alloc.head
    ensures alloc.Valid() && |old(alloc.allocs)| <= |alloc.allocs|
    ensures alloc.allocs[..|old(alloc.allocs)|] == old(alloc.allocs)
    ensures HoldsText(alloc, r, k, text + Flatten(args))
    ensures k == |old(alloc.allocs)| || k == j
    ensures KeptBut(old(alloc.allocs), j, old(alloc.heap.mem), alloc.heap.mem)
    ensures Load(alloc.heap.mem, value.base, value.len) == text
    ensures alloc.head == old(alloc.head) || (alloc.head != null && fresh(alloc.head))
  {
    ghost var before, mem0 := alloc.allocs, alloc.heap.mem;
    var len := value.len + Count(0, args);
    var dst;
    dst, k := alloc.Realloc(At(value.base), j, len + 1);
    ghost var mem1 := alloc.heap.mem;
    SamePrefix(mem0, value.base, mem1, dst, value.len, before[j].len);
    CopyArgs(alloc, k, dst, value.len, args, text);
    r := StringRef(dst, len);
    ghost var mem2 := alloc.heap.mem;
    OldPreserved(before, alloc.allocs, k, mem0, mem1, mem2);
    if k == j {
      LoadPrefix(mem2, dst, value.len, len);
    } else {
      assert Contents(mem2, before[j]) == Contents(mem0, before[j]);
      SamePrefix(mem0, value.base, mem2, value.base, value.len, before[j].len);
    }
  }

  /** Old allocations other than k keep their bytes through a realloc and the copy into k. */
  lemma OldPreserved(before: seq<Allocation>, allocs: seq<Allocation>, k: nat, mem0: Memory, mem1: Memory, mem2: Memory)
    requires k < |allocs| && |before| <= |allocs| && allocs[..|before|] == before
    requires Preserved(before, mem0, mem1) && Preserved(Others(allocs, k), mem1, mem2)
    ensures KeptBut(before, k, mem0, mem2)
  {
    forall i | 0 <= i < |before| && i != k ensures Contents(mem2, before[i]) == Contents(mem0, before[i]) {
      assert before[i] == allocs[i];
      OtherPreserved(allocs, k, mem1, mem2, i);
    }
  }

  lemma SamePrefix(mem: Memory, p: int, mem': Memory, p': int, m: nat, n: nat)
    requires m <= n && Load(mem, p, n) == Load(mem', p', n)
    ensures Load(mem, p, m) == Load(mem', p', m)
  {
    LoadPrefix(mem, p, m, n);
    LoadPrefix(mem', p', m, n);
  }

  lemma LoadPrefix(mem: Memory, p: int, m: nat, n: nat)
    requires m <= n
    ensures Load(mem, p, n)[..m] == Load(mem, p, m)
  {
  }

  lemma OtherPreserved(allocs: seq<Allocation>, k: nat, mem: Memory, mem': Memory, i: nat)
    requires k < |allocs| && i < |allocs| && i != k && Preserved(Others(allocs, k), mem, mem')
    ensures Contents(mem', allocs[i]) == Contents(mem, allocs[i])
  {
    assert allocs[i] == Others(allocs, k)[if i < k then i else i - 1];
  }

  /** All the arguments of a chain of calls, in order */
  function FlattenAll(calls: seq<seq<Bytes>>): Bytes {
    if calls == [] then [] else FlattenAll(calls[..|calls| - 1]) + Flatten(calls[|calls| - 1])
  }

  lemma {:induction false} FlattenAllGrows(calls: seq<seq<Bytes>>, n: nat)
    requires n <= |calls|
    ensures |FlattenAll(calls[..n])| <= |FlattenAll(calls)|
  {
    if n < |calls| {
      assert calls[..|calls| - 1][..n] == calls[..n];
      FlattenAllGrows(calls[..|calls| - 1], n);
    } else {
      assert calls[..n] == calls;
    }
  }

  /**
    Any chain value = realloc_concat_string_ref(alloc, value, ...) from the empty string yields the whole text and
    leaves every allocation made before it as it was.
  */
  method ConcatChain(alloc: BlockAllocator, calls: seq<seq<Bytes>>) returns (value: StringRef, ghost k: nat)
    requires alloc.Valid() && Fits(|FlattenAll(calls)|)
    modifies alloc, alloc.heap, alloc.head
    ensures alloc.Valid() && |old(alloc.allocs)| <= |alloc.allocs|
    ensures alloc.allocs[..|old(alloc.allocs)|] == old(alloc.allocs)
    ensures calls != [] ==> HoldsText(alloc, value, k, FlattenAll(calls))
    ensures value.len == |FlattenAll(calls)| && k >= |old(alloc.allocs)|
    ensures Preserved(old(alloc.allocs), old(alloc.heap.mem), alloc.heap.mem)
    ensures alloc.head == old(alloc.head) || (alloc.head != null && fresh(alloc.head))
    decreases |calls|
  {
    if calls == [] {
      return StringRef(0, 0), |alloc.allocs|;
    }
    ghost var before, mem0 := alloc.allocs, alloc.heap.mem;
    var front, last := calls[..|calls| - 1], calls[|calls| - 1];
    FlattenAllGrows(calls, |front|);
    var prefix;
    ghost var j;
    prefix, j := ConcatChain(alloc, front);
    ghost var middle, mem1 := alloc.allocs, alloc.heap.mem;
    value, k := ReallocConcat(alloc, prefix, j, FlattenAll(front), last);
    KeptOnwards(before, middle, j, mem0, mem1, alloc.heap.mem);
    assert alloc.allocs[..|before|] == alloc.allocs[..|middle|][..|before|];
  }

  lemma KeptOnwards(before: seq<Allocation>, middle: seq<Allocation>, j: nat, mem0: Memory, mem1: Memory, mem2: Memory)
    requires |before| <= |middle| && middle[..|before|] == before && j >= |before|
    requires Preserved(before, mem0, mem1) && (KeptBut(middle, j, mem1, mem2) || KeptBut(middle, -1, mem1, mem2))
    ensures Preserved(before, mem0, mem2)
  {
    forall i | 0 <= i < |before| ensures Contents(mem2, before[i]) == Contents(mem0, before[i]) {
      assert middle[i] == before[i];
    }
  }
}
