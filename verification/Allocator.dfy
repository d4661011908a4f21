/**
ebpf_allocator: fixed-size blocks carved out of page-sized segments at the
start, then handed out and taken back through a free list. Addresses are
naturals. The platform's calloc always succeeds here; `calloc(i)` is the address
of the i-th segment it returns, and segments do not overlap.
*/
module Allocator {
  import opened Collections

  const HEADER: nat := 8              // sizeof(struct ebpf_allocator_entry)
  const ALIGN: nat := 8               // sizeof(void *)
  const LIMIT: nat := 0x1_0000_0000   // sizes are 32-bit

  /** Segments of this size at the calloc'd addresses never overlap. */
  ghost predicate Separate(calloc: nat -> nat, size: nat) {
    forall i: nat, j: nat :: i != j ==> Apart(calloc(i), calloc(j), size)
  }

  /** Two ranges of the same size do not overlap. */
  predicate Apart(x: nat, y: nat, size: nat) {
    x + size <= y || y + size <= x
  }

  /** The size is assigned to 32 bits; the comparison before is made in 64. */
  function SegmentSize(pageSize: nat, blockSize: nat): (s: nat)
    ensures Fits(blockSize) ==> s >= HEADER + blockSize + ALIGN
  {
    if pageSize < HEADER + blockSize + ALIGN then (HEADER + blockSize + ALIGN) % LIMIT else pageSize
  }

  /** A segment with one block has a 32-bit size. */
  predicate Fits(blockSize: nat) {
    HEADER + blockSize + ALIGN < LIMIT
  }

  /** x - y in 32 bits. */
  function Minus(x: nat, y: nat): nat {
    (x - y) % LIMIT
  }

  /** The block lies in the segment, after the segment's header. */
  predicate Inside(block: nat, blockSize: nat, segment: nat, size: nat) {
    segment + HEADER <= block && block + blockSize <= segment + size
  }

  ghost predicate InSegment(block: nat, blockSize: nat, segments: seq<nat>, size: nat) {
    exists i :: 0 <= i < |segments| && Inside(block, blockSize, segments[i], size)
  }

  /** No two blocks overlap. */
  ghost predicate Separated(blocks: seq<nat>, blockSize: nat) {
    && (forall i, j :: 0 <= i < j < |blocks| ==> Apart(blocks[i], blocks[j], blockSize))
    && (blockSize > 0 ==> Distinct(blocks))
  }

  ghost predicate Enclosed(blocks: seq<nat>, blockSize: nat, segments: seq<nat>, size: nat) {
    forall i :: 0 <= i < |blocks| ==> InSegment(blocks[i], blockSize, segments, size)
  }

  /** When the 32-bit counter of blocks, compared after each increment, equals nblocks. */
  function Enough(nblocks: nat): nat {
    if nblocks == 0 then LIMIT else nblocks
  }

  class BlockAllocator {
    const nblocks: nat
    const blockSize: nat
    var free: seq<nat>       // free_block, first entry first
    var segments: seq<nat>   // used_segment
    var count: nat

    ghost predicate Valid()
      reads this
    {
      count == |free|
    }

    /** ebpf_allocator_init. */
    constructor (blockSize: nat, nblocks: nat, calloc: nat -> nat, pageSize: nat)
      requires pageSize < LIMIT && blockSize < LIMIT && nblocks < LIMIT
      requires Separate(calloc, SegmentSize(pageSize, blockSize))
      ensures (Valid() <==> nblocks >= 1) && this.nblocks == nblocks && this.blockSize == blockSize
      ensures count == nblocks
      ensures |free| == Enough(nblocks)
      ensures Fits(blockSize) ==> Separated(free, blockSize)
      ensures Fits(blockSize) <==> Enclosed(free, blockSize, segments, SegmentSize(pageSize, blockSize))
      ensures blockSize % ALIGN == 0 ==> forall i :: 0 <= i < |free| ==> free[i] % ALIGN == 0
    {
      this.nblocks, this.blockSize := nblocks, blockSize;
      free, segments, count := [], [], nblocks;
      new;
      Prealloc(calloc, pageSize);
    }

    /**
    ebpf_allocator_prealloc. While a segment of one block fits in 32 bits, the
    subtractions from `size` never go below zero; beyond that the segment is smaller
    than its block. Asked for no block it makes 2^32 of them.
    */
    method Prealloc(calloc: nat -> nat, pageSize: nat)
      requires pageSize < LIMIT && blockSize < LIMIT && nblocks < LIMIT
      requires Separate(calloc, SegmentSize(pageSize, blockSize))
      requires free == [] && segments == []
      modifies this`free, this`segments
      ensures |free| == Enough(nblocks)
      ensures Fits(blockSize) ==> Separated(free, blockSize)
      ensures Fits(blockSize) <==> Enclosed(free, blockSize, segments, SegmentSize(pageSize, blockSize))
      ensures blockSize % ALIGN == 0 ==> forall i :: 0 <= i < |free| ==> free[i] % ALIGN == 0
    {
      var total := SegmentSize(pageSize, blockSize);
      ghost var home: seq<nat> := [];   // the segment number of each block
      var made := 0;
      while made == 0 || made % LIMIT != nblocks
        invariant made == |free| <= Enough(nblocks)
        invariant Carved(free, blockSize, calloc, total, home)
        invariant forall i :: 0 <= i < |segments| ==> segments[i] == calloc(|segments| - 1 - i)
        invariant forall i :: 0 <= i < |home| ==> home[i] < |segments|
        decreases Enough(nblocks) - made
      {
        var n := |segments|;
        segments := [calloc(n)] + segments;
        var data, size := FirstBlock(calloc(n), total);
        made, home := CarveSegment(calloc, total, n, data, size, made, home);
      }
      if Fits(blockSize) {
        BlocksInSegments(free, blockSize, calloc, total, home, segments);
      } else {
        NotEnclosed(free, blockSize, segments, pageSize);
      }
    }

    /** Skip the header of a segment and align. */
    method FirstBlock(segment: nat, total: nat) returns (data: nat, size: nat)
      requires blockSize < LIMIT && total < LIMIT && (Fits(blockSize) ==> total >= HEADER + blockSize + ALIGN)
      ensures segment + HEADER <= data && data % ALIGN == 0 && size < LIMIT
      ensures Fits(blockSize) ==> data + size == segment + total && size >= blockSize
    {
      data, size := segment + HEADER, Minus(total, HEADER);
      var mis := data % ALIGN;
      if mis != 0 {
        data, size := data + (ALIGN - mis), Minus(size, ALIGN - mis);
      }
    }

    /** The loop over one segment: blocks from `data` on, while `size` lasts. */
    method CarveSegment(calloc: nat -> nat, ghost total: nat, ghost n: nat,
                        data0: nat, size0: nat, made0: nat, ghost home0: seq<nat>)
      returns (made: nat, ghost home: seq<nat>)
      requires Separate(calloc, total) && nblocks < LIMIT && size0 < LIMIT
      requires made0 == |free| < Enough(nblocks) && Carved(free, blockSize, calloc, total, home0)
      requires forall i :: 0 <= i < |home0| ==> home0[i] < n
      requires calloc(n) + HEADER <= data0 && data0 % ALIGN == 0
      requires Fits(blockSize) ==> data0 + size0 == calloc(n) + total && size0 >= blockSize
      modifies this`free
      ensures made0 < made == |free| <= Enough(nblocks) && Carved(free, blockSize, calloc, total, home)
      ensures forall i :: 0 <= i < |home| ==> home[i] <= n
    {
      var data, size: nat := data0, size0;
      made, home := made0, home0;
      var more := true;
      while more
        invariant more ==> made < Enough(nblocks)
        invariant !more ==> made > made0
        invariant made0 <= made == |free| <= Enough(nblocks)
        invariant Fits(blockSize) && more ==> size >= blockSize
        invariant Fits(blockSize) ==> data + size == calloc(n) + total && size < LIMIT
        invariant calloc(n) + HEADER <= data && (blockSize % ALIGN == 0 ==> data % ALIGN == 0)
        invariant Carved(free, blockSize, calloc, total, home)
        invariant forall i :: 0 <= i < |home| ==> home[i] <= n && (home[i] == n ==> free[i] + blockSize <= data)
        decreases Enough(nblocks) - made, more
      {
        CarveOne(free, blockSize, calloc, total, home, n, data);
        free := [data] + free;
        home := [n] + home;
        data := data + blockSize;
        size := Minus(size, blockSize);
        made := made + 1;
        more := made % LIMIT != nblocks && size > blockSize;
      }
    }

    /** ebpf_allocator_alloc; the count decides, which is the length of the free list in a valid allocator. */
    method Alloc() returns (r: Option<nat>)
      requires count <= |free|
      modifies this`free, this`count
      ensures old(Valid()) ==> Valid()
      ensures old(count) == 0 ==> r == None && free == old(free) && count == 0
      ensures old(count) > 0 ==> r == Some(old(free)[0]) && free == old(free)[1..] && count == old(count) - 1
    {
      r := None;
      if count > 0 {
        r := Some(free[0]);
        free := free[1..];
        count := count - 1;
      }
    }

    /** ebpf_allocator_free. */
    method Free(block: nat)
      requires Valid()
      modifies this`free, this`count
      ensures Valid() && free == [block] + old(free)
    {
      free := [block] + free;
      count := count + 1;
    }

    /** ebpf_allocator_deinit; the source asserts the precondition. */
    method Deinit()
      requires count == nblocks
      modifies this`segments
      ensures segments == []
    {
      while segments != []
        decreases |segments|
      {
        segments := segments[1..];
      }
    }
  }

  /** All blocks are aligned; if they fit, each lies in its segment and no two overlap. */
  ghost predicate Carved(blocks: seq<nat>, blockSize: nat, calloc: nat -> nat, size: nat, home: seq<nat>) {
    && |home| == |blocks|
    && (Fits(blockSize) ==> forall i :: 0 <= i < |blocks| ==> Inside(blocks[i], blockSize, calloc(home[i]), size))
    && (Fits(blockSize) ==> forall i, j :: 0 <= i < j < |blocks| ==> Apart(blocks[i], blocks[j], blockSize))
    && (blockSize % ALIGN == 0 ==> forall i :: 0 <= i < |blocks| ==> blocks[i] % ALIGN == 0)
  }

  lemma BlocksInSegments(blocks: seq<nat>, blockSize: nat, calloc: nat -> nat, size: nat, home: seq<nat>,
                         segments: seq<nat>)
    requires Carved(blocks, blockSize, calloc, size, home) && Fits(blockSize)
    requires forall i :: 0 <= i < |segments| ==> segments[i] == calloc(|segments| - 1 - i)
    requires forall i :: 0 <= i < |home| ==> home[i] < |segments|
    ensures Enclosed(blocks, blockSize, segments, size)
  {
    forall i | 0 <= i < |blocks|
      ensures InSegment(blocks[i], blockSize, segments, size)
    {
      assert Inside(blocks[i], blockSize, segments[|segments| - 1 - home[i]], size);
    }
  }

  /** A segment whose size has wrapped holds no block. */
  lemma NotEnclosed(blocks: seq<nat>, blockSize: nat, segments: seq<nat>, pageSize: nat)
    requires blocks != [] && !Fits(blockSize) && blockSize < LIMIT && pageSize < LIMIT
    ensures !Enclosed(blocks, blockSize, segments, SegmentSize(pageSize, blockSize))
  {
    assert !InSegment(blocks[0], blockSize, segments, SegmentSize(pageSize, blockSize));
  }

  /** The next block of segment n starts where that segment's last one ended. */
  lemma CarveOne(blocks: seq<nat>, blockSize: nat, calloc: nat -> nat, size: nat, home: seq<nat>, n: nat, data: nat)
    requires Carved(blocks, blockSize, calloc, size, home) && Separate(calloc, size)
    requires forall i :: 0 <= i < |home| ==> home[i] <= n && (home[i] == n ==> blocks[i] + blockSize <= data)
    requires Fits(blockSize) ==> Inside(data, blockSize, calloc(n), size)
    requires blockSize % ALIGN == 0 ==> data % ALIGN == 0
    ensures Carved([data] + blocks, blockSize, calloc, size, [n] + home)
  {
  }
}
