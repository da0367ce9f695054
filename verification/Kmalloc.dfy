/** Size-class pools over the page-frame allocator. */
module Kmalloc {
  import opened Arith
  import opened Blocks
  import opened Frames
  import opened Sequences
  import opened Wrappers
  import B = Buddy

  const NUM_POOLS: nat := 8

  /** A chunk handed out: its size class and the size asked for. */
  datatype Chunk = Chunk(pool: nat, asked: nat)

  /** Chunk sizes 16, 32, .. 2048. */
  function ChunkSize(c: nat): nat {
    Pow2(c + 4)
  }

  /** c is the smallest class whose chunks hold size bytes. */
  ghost predicate LeastClass(size: nat, c: nat) {
    c < NUM_POOLS && size <= ChunkSize(c) && forall d: nat :: d < c ==> ChunkSize(d) < size
  }

  method FindPool(size: nat) returns (c: int)
    ensures 0 <= c ==> LeastClass(size, c)
    ensures c < 0 ==> c == -1 && forall d: nat :: d < NUM_POOLS ==> ChunkSize(d) < size
  {
    for i := 0 to NUM_POOLS
      invariant forall d: nat :: d < i ==> ChunkSize(d) < size
    {
      if size <= ChunkSize(i) {
        return i;
      }
    }
    return -1;
  }

  /** Address a starts a chunk of class c: its page belongs to that pool and its offset is a multiple of the size. */
  ghost predicate IsChunk(base: nat, pagePool: seq<int>, a: nat, c: nat) {
    && base <= a && (a - base) / PAGE_SIZE < |pagePool|
    && pagePool[(a - base) / PAGE_SIZE] == c
    && Aligned((a - base) % PAGE_SIZE, c + 4)
  }

  /** Pool pages are live single pages of the page-frame allocator. */
  ghost predicate PoolPagesLive(pagePool: seq<int>, live: map<nat, nat>) {
    && (forall p :: 0 <= p < |pagePool| ==> -1 <= pagePool[p] < NUM_POOLS)
    && (forall p :: 0 <= p < |pagePool| && pagePool[p] >= 0 ==> p in live && live[p] == 0)
  }

  /** Every chunk of every pool page is on its pool's free list or handed out, never both, never twice. */
  ghost predicate ChunksSplit(base: nat, pagePool: seq<int>, pools: seq<seq<nat>>, small: map<nat, Chunk>) {
    && |pools| == NUM_POOLS
    && (forall c: nat :: c < NUM_POOLS ==> NoDup(pools[c]))
    && (forall a :: a in small ==> small[a].pool < NUM_POOLS && small[a].asked <= ChunkSize(small[a].pool))
    && (forall c: nat, a: nat :: c < NUM_POOLS ==>
        (IsChunk(base, pagePool, a, c) <==> a in pools[c] || (a in small && small[a].pool == c)))
    && (forall c: nat, a: nat :: c < NUM_POOLS && a in pools[c] ==> a !in small)
  }

  /** The block is as large as was asked for, unless rounding the size up wrapped around. */
  predicate Ample(size: nat, order: nat) {
    size <= Pow2(order) * PAGE_SIZE || size > WORD - PAGE_SIZE
  }

  /** Large allocations are the heads of live blocks that no pool owns; large gives the size asked for. */
  ghost predicate LargeLive(pagePool: seq<int>, live: map<nat, nat>, large: map<nat, nat>) {
    forall i :: i in large ==> i in live && i < |pagePool| && pagePool[i] < 0 && Ample(large[i], live[i])
  }

  ghost predicate Accounted(base: nat, pagePool: seq<int>, live: map<nat, nat>, pools: seq<seq<nat>>,
                            small: map<nat, Chunk>, large: map<nat, nat>)
  {
    && PoolPagesLive(pagePool, live)
    && ChunksSplit(base, pagePool, pools, small)
    && LargeLive(pagePool, live, large)
  }

  /** The free list after slicing n chunks off a page, the last chunk first. */
  function Sliced(page: nat, size: nat, n: nat): seq<nat> {
    if n == 0 then [] else [page + (n - 1) * size] + Sliced(page, size, n - 1)
  }

  function NumChunks(c: nat): nat
    requires c < NUM_POOLS
  {
    ChunksPerPage(c);
    PAGE_SIZE / ChunkSize(c)
  }

  lemma {:induction false} SlicedMembers(page: nat, size: nat, n: nat)
    requires size > 0
    ensures forall a :: a in Sliced(page, size, n) <==> exists j: nat :: j < n && a == page + j * size
    ensures NoDup(Sliced(page, size, n))
    ensures forall a :: a in Sliced(page, size, n) ==> page <= a < page + n * size
  {
    if n > 0 {
      SlicedMembers(page, size, n - 1);
      MulSucc(n - 1, size);
      var rest := Sliced(page, size, n - 1);
      var s := Sliced(page, size, n);
      assert s == [page + (n - 1) * size] + rest;
      forall a ensures a in s <==> exists j: nat :: j < n && a == page + j * size {
        if a in rest {
          var j: nat :| j < n - 1 && a == page + j * size;
          assert j < n && a == page + j * size;
        }
      }
      assert page + (n - 1) * size !in rest;
    }
  }

  lemma ChunksPerPage(c: nat)
    requires c < NUM_POOLS
    ensures 16 <= ChunkSize(c) <= 2048 && PAGE_SIZE / ChunkSize(c) == Pow2(8 - c)
    ensures Pow2(8 - c) * ChunkSize(c) == PAGE_SIZE
  {
    Pow2Split(c + 4, 12);
    Pow2Monotone(4, c + 4);
    Pow2Monotone(c + 4, 11);
    assert Pow2(4) == 16 && Pow2(11) == 2048 && Pow2(12) == 4096 by {
      assert Pow2(3) == 8 && Pow2(6) == 8 * Pow2(3) && Pow2(9) == 8 * Pow2(6);
    }
    DivUnique(PAGE_SIZE, ChunkSize(c), Pow2(8 - c), 0);
  }

  /** a lies on page p at an offset that is a multiple of the chunk size. */
  ghost predicate OnPage(base: nat, p: nat, c: nat, a: nat) {
    base <= a && (a - base) / PAGE_SIZE == p && Aligned((a - base) % PAGE_SIZE, c + 4)
  }

  /** The slices of page p are exactly those addresses. */
  lemma PageChunks(base: nat, p: nat, c: nat, a: nat)
    requires c < NUM_POOLS
    ensures a in Sliced(base + p * PAGE_SIZE, ChunkSize(c), NumChunks(c)) <==> OnPage(base, p, c, a)
  {
    hide Sliced, Aligned;
    var size, n, page := ChunkSize(c), NumChunks(c), base + p * PAGE_SIZE;
    ChunksPerPage(c);
    SlicedMembers(page, size, n);
    if a in Sliced(page, size, n) {
      var j: nat :| j < n && a == page + j * size;
      SliceOnPage(base, p, size, n, j);
      AlignedIsMultiple((a - base) % PAGE_SIZE, c + 4);
    }
    if OnPage(base, p, c, a) {
      AlignedIsMultiple((a - base) % PAGE_SIZE, c + 4);
      var j := PageSlice(base, p, size, n, a);
    }
  }

  lemma SliceOnPage(base: nat, p: nat, size: nat, n: nat, j: nat)
    requires size > 0 && n * size == PAGE_SIZE && j < n
    ensures var a := base + p * PAGE_SIZE + j * size;
            (a - base) / PAGE_SIZE == p && (a - base) % PAGE_SIZE % size == 0
  {
    StepMultipleBound(j, n, size);
    DivUnique(p * PAGE_SIZE + j * size, PAGE_SIZE, p, j * size);
    MulMod(j, size);
  }

  lemma PageSlice(base: nat, p: nat, size: nat, n: nat, a: nat) returns (j: nat)
    requires size > 0 && n * size == PAGE_SIZE
    requires base <= a && (a - base) / PAGE_SIZE == p && (a - base) % PAGE_SIZE % size == 0
    ensures j < n && a == base + p * PAGE_SIZE + j * size
  {
    var off := (a - base) % PAGE_SIZE;
    j := off / size;
    Quotient(off, size);
    QuotientBound(off, size, n);
  }

  lemma StepMultipleBound(j: nat, n: nat, size: nat)
    requires j < n && size > 0
    ensures j * size + size <= n * size
  {
    MulSucc(j, size);
    MulMonotone(j + 1, n, size);
  }

  lemma QuotientBound(off: nat, size: nat, n: nat)
    requires size > 0 && off < n * size
    ensures off / size < n
  {
    if off / size >= n {
      MulMonotone(n, off / size, size);
    }
  }

  /** A fresh pool page adds all of its chunks to the free list. */
  lemma AddPage(base: nat, pagePool: seq<int>, pools: seq<seq<nat>>, small: map<nat, Chunk>, p: nat, c: nat)
    requires ChunksSplit(base, pagePool, pools, small) && c < NUM_POOLS && pools[c] == []
    requires p < |pagePool| && pagePool[p] < 0
    ensures ChunksSplit(base, pagePool[p := c],
                        pools[c := Sliced(base + p * PAGE_SIZE, ChunkSize(c), NumChunks(c))], small)
  {
    var slices := Sliced(base + p * PAGE_SIZE, ChunkSize(c), NumChunks(c));
    ChunksPerPage(c);
    SlicedMembers(base + p * PAGE_SIZE, ChunkSize(c), NumChunks(c));
    forall a: nat ensures a in slices <==> OnPage(base, p, c, a) {
      PageChunks(base, p, c, a);
    }
    forall d: nat, a: nat
      ensures IsChunk(base, pagePool[p := c], a, d) <==>
              IsChunk(base, pagePool, a, d) || (d == c && OnPage(base, p, c, a))
    {
      ChunkAfter(base, pagePool, p, c, a, d);
    }
    assert forall d: nat, a: nat :: a in slices ==> !IsChunk(base, pagePool, a, d);
    NewPageSplit(base, pagePool, pagePool[p := c], pools, slices, small, c);
  }

  lemma NewPageSplit(base: nat, pagePool: seq<int>, pagePool': seq<int>, pools: seq<seq<nat>>, slices: seq<nat>,
                     small: map<nat, Chunk>, c: nat)
    requires ChunksSplit(base, pagePool, pools, small) && c < NUM_POOLS && pools[c] == [] && NoDup(slices)
    requires forall d: nat, a: nat ::
               IsChunk(base, pagePool', a, d) <==> IsChunk(base, pagePool, a, d) || (d == c && a in slices)
    requires forall d: nat, a: nat :: a in slices ==> !IsChunk(base, pagePool, a, d)
    ensures ChunksSplit(base, pagePool', pools[c := slices], small)
  {
    assert forall a :: a in small ==> IsChunk(base, pagePool, a, small[a].pool);
  }

  lemma ChunkAfter(base: nat, pagePool: seq<int>, p: nat, c: nat, a: nat, d: nat)
    requires p < |pagePool| && pagePool[p] < 0
    ensures IsChunk(base, pagePool[p := c], a, d) <==>
            IsChunk(base, pagePool, a, d) || (d == c && OnPage(base, p, c, a))
  {
  }

  lemma TakeChunk(base: nat, pagePool: seq<int>, pools: seq<seq<nat>>, small: map<nat, Chunk>, c: nat, size: nat)
    requires ChunksSplit(base, pagePool, pools, small) && c < NUM_POOLS && pools[c] != [] && size <= ChunkSize(c)
    ensures var a := pools[c][0];
            && a !in small && IsChunk(base, pagePool, a, c)
            && ChunksSplit(base, pagePool, pools[c := pools[c][1..]], small[a := Chunk(c, size)])
  {
    var a := pools[c][0];
    assert a in pools[c];
    assert pools[c] == [a] + pools[c][1..];
    var pools' := pools[c := pools[c][1..]];
    forall d: nat, x: nat | d < NUM_POOLS && x in pools'[d] ensures x !in small[a := Chunk(c, size)] {
      assert x in pools[d];
      assert a !in pools[c][1..];
      assert IsChunk(base, pagePool, x, d) && IsChunk(base, pagePool, a, c);
    }
  }

  lemma GiveChunk(base: nat, pagePool: seq<int>, pools: seq<seq<nat>>, small: map<nat, Chunk>, a: nat)
    requires ChunksSplit(base, pagePool, pools, small) && a in small
    ensures ChunksSplit(base, pagePool, pools[small[a].pool := [a] + pools[small[a].pool]], small - {a})
  {
  }

  /** The state of kmalloc.c itself; `live` is the page-frame allocator's map of live blocks. */
  class Pools {
    const base: nat
    const pagePool: array<int>
    var lists: seq<seq<nat>>
    ghost var small: map<nat, Chunk>  // chunks handed out
    ghost var large: map<nat, nat>    // first pages of blocks handed out whole, with the size asked for

    ghost predicate Accounts(live: map<nat, nat>)
      reads this, pagePool
    {
      Accounted(base, pagePool[..], live, lists, small, large)
    }

    constructor (base: nat, pagePool: array<int>, ghost live: map<nat, nat>)
      modifies pagePool
      ensures Accounts(live) && this.base == base && this.pagePool == pagePool
      ensures small == map[] && large == map[] && lists == seq(NUM_POOLS, _ => [])
      ensures forall p :: 0 <= p < pagePool.Length ==> pagePool[p] == -1
    {
      this.base := base;
      this.pagePool := pagePool;
      this.lists := seq(NUM_POOLS, _ => []);
      this.small := map[];
      this.large := map[];
      new;
      for i := 0 to pagePool.Length
        invariant lists == seq(NUM_POOLS, _ => []) && small == map[] && large == map[]
        invariant forall p :: 0 <= p < i ==> pagePool[p] == -1
      {
        pagePool[i] := -1;
      }
    }

    /** Mark the pages of a large allocation as owned by no pool. */
    method EnterLarge(first: nat, size: nat, ghost order: nat, ghost live: map<nat, nat>)
      requires Accounts(live) && first !in live && 0 < size < WORD
      requires B.LeastOrder(B.PagesNeeded(size), order) && first + Pow2(order) <= pagePool.Length
      requires forall p :: first <= p < first + Pow2(order) ==> pagePool[p] == -1
      modifies this, pagePool
      ensures Accounts(live[first := order]) && lists == old(lists) && small == old(small)
      ensures pagePool[..] == old(pagePool[..]) && first !in old(large) && large == old(large)[first := size]
    {
      Covers(size, order);
      TakeLarge(base, pagePool[..], live, lists, small, large, first, order, size);
      var pages := B.PagesNeeded(size);
      for i := 0 to pages
        invariant pagePool[..] == old(pagePool[..])
        invariant lists == old(lists) && small == old(small) && large == old(large)
      {
        pagePool[first + i] := -1;
      }
      large := large[first := size];
    }

    /** Give page p to pool c and slice it onto the free list. */
    method EnterPage(p: nat, c: nat, ghost live: map<nat, nat>)
      requires Accounts(live) && c < NUM_POOLS && lists[c] == [] && p < pagePool.Length && pagePool[p] < 0 && p !in live
      modifies this, pagePool
      ensures Accounts(live[p := 0]) && small == old(small) && large == old(large)
      ensures pagePool[..] == old(pagePool[..])[p := c]
      ensures lists == old(lists)[c := Sliced(base + p * PAGE_SIZE, ChunkSize(c), NumChunks(c))] && lists[c] != []
    {
      GrowPool(base, pagePool[..], live, lists, small, large, p, c);
      pagePool[p] := c;
      Slice(base + p * PAGE_SIZE, c);
      SlicesExist(base + p * PAGE_SIZE, c);
    }

    method Slice(page: nat, c: nat)
      requires |lists| == NUM_POOLS && c < NUM_POOLS && lists[c] == []
      modifies `lists
      ensures lists == old(lists)[c := Sliced(page, ChunkSize(c), NumChunks(c))]
    {
      var size, n := ChunkSize(c), NumChunks(c);
      for i := 0 to n
        invariant lists == old(lists)[c := Sliced(page, size, i)]
      {
        lists := lists[c := [page + i * size] + lists[c]];
      }
    }

    /** Pop the first free chunk of class c. */
    method Take(c: nat, size: nat, ghost live: map<nat, nat>) returns (ptr: nat)
      requires Accounts(live) && c < NUM_POOLS && lists[c] != [] && size <= ChunkSize(c)
      modifies this
      ensures Accounts(live) && large == old(large)
      ensures ptr == old(lists)[c][0] && ptr !in old(small) && IsChunk(base, pagePool[..], ptr, c)
      ensures small == old(small)[ptr := Chunk(c, size)] && lists == old(lists)[c := old(lists)[c][1..]]
    {
      ptr := lists[c][0];
      TakeSmall(base, pagePool[..], live, lists, small, large, c, size);
      lists := lists[c := lists[c][1..]];
      small := small[ptr := Chunk(c, size)];
    }

    /** Push a chunk back on the list of its class. */
    method Give(ptr: nat, c: nat, ghost live: map<nat, nat>)
      requires Accounts(live) && ptr in small && small[ptr].pool == c
      modifies this
      ensures Accounts(live) && large == old(large) && small == old(small) - {ptr}
      ensures lists == old(lists)[c := [ptr] + old(lists)[c]]
    {
      GiveChunk(base, pagePool[..], lists, small, ptr);
      lists := lists[c := [ptr] + lists[c]];
      small := small - {ptr};
    }

    ghost method DropLarge(first: nat, live: map<nat, nat>)
      requires Accounts(live) && first in large
      modifies `large
      ensures Accounts(live - {first}) && large == old(large) - {first}
    {
      large := large - {first};
    }
  }

  /** Free chunks, page owners, free pages, live blocks of the page frames, and what kmalloc has handed out. */
  datatype State = State(lists: seq<seq<nat>>, owner: seq<int>, free: set<nat>, live: map<nat, nat>,
                         small: map<nat, Chunk>, large: map<nat, nat>)

  /** Page p has become a page of pool c, sliced onto its list. */
  ghost function Refilled(s: State, base: nat, c: nat, p: nat): State
    requires c < NUM_POOLS && c < |s.lists| && p < |s.owner|
  {
    s.(lists := s.lists[c := Sliced(base + p * PAGE_SIZE, ChunkSize(c), NumChunks(c))],
       owner := s.owner[p := c], free := s.free - Pages(p, 0), live := s.live[p := 0])
  }

  lemma RefilledLists(s: State, base: nat, c: nat, p: nat)
    requires c < NUM_POOLS && c < |s.lists| && p < |s.owner|
    ensures var r := Refilled(s, base, c, p);
            |r.lists| == |s.lists| && r.small == s.small && r.large == s.large
  {
  }

  /** The first free chunk of class c has been handed out. */
  ghost function Popped(s: State, c: nat, size: nat): State
    requires c < |s.lists| && s.lists[c] != []
  {
    s.(lists := s.lists[c := s.lists[c][1..]], small := s.small[s.lists[c][0] := Chunk(c, size)])
  }

  /** A chunk of class c has been handed out, from a fresh page if there was none. */
  ghost predicate TookChunk(s: State, base: nat, size: nat, c: nat, ptr: nat, s': State) {
    && c < NUM_POOLS && c < |s.lists|
    && if s.lists[c] != [] then ptr == s.lists[c][0] && s' == Popped(s, c, size)
       else exists p: nat :: TookPage(s, base, size, c, p, ptr, s')
  }

  ghost predicate TookPage(s: State, base: nat, size: nat, c: nat, p: nat, ptr: nat, s': State)
    requires c < NUM_POOLS && c < |s.lists|
  {
    && p in s.free && p < |s.owner|
    && var r := Refilled(s, base, c, p);
       r.lists[c] != [] && ptr == r.lists[c][0] && s' == Popped(r, c, size)
  }

  /** The free block of order k at page i has been handed out. */
  ghost predicate TookBlock(s: State, size: nat, i: nat, k: nat, s': State) {
    && FreeBlock(s.free, i, k)
    && s' == s.(free := s.free - Pages(i, k), live := s.live[i := k], large := s.large[i := size])
  }

  /** ptr is new: a chunk of the least sufficient class, or a block of the least sufficient order. */
  ghost predicate Obtained(s: State, base: nat, size: nat, ptr: nat, s': State) {
    && base <= ptr
    && if size <= 2048 then
         ptr !in s.small && exists c: nat :: LeastClass(size, c) && TookChunk(s, base, size, c, ptr, s')
       else
         && (ptr - base) / PAGE_SIZE !in s.large
         && exists k: nat :: B.LeastOrder(B.PagesNeeded(size), k) && TookBlock(s, size, (ptr - base) / PAGE_SIZE, k, s')
  }

  /** ptr is no longer live: its chunk is back in front of its list, or its block is with the page frames. */
  ghost predicate Released(s: State, base: nat, ptr: nat, s': State) {
    if ptr in s.small then
      var c := s.small[ptr].pool;
      c < |s.lists| && s' == s.(lists := s.lists[c := [ptr] + s.lists[c]], small := s.small - {ptr})
    else
      && base <= ptr && (ptr - base) / PAGE_SIZE in s.live
      && var i := (ptr - base) / PAGE_SIZE;
         s' == s.(free := s.free + Pages(i, s.live[i]), live := s.live - {i}, large := s.large - {i})
  }

  ghost predicate IsLive(base: nat, small: map<nat, Chunk>, large: map<nat, nat>, ptr: nat) {
    ptr in small ||
    (base <= ptr && (ptr - base) / PAGE_SIZE in large && ptr == base + (ptr - base) / PAGE_SIZE * PAGE_SIZE)
  }

  class Heap {
    const buddy: B.Allocator
    const pools: Pools

    ghost predicate Linked()
      reads this, pools, buddy
    {
      && pools.base == buddy.base && pools.pagePool != buddy.frame && pools.pagePool.Length == buddy.frame.Length
    }

    ghost function Contents(): State
      reads this, pools, pools.pagePool, buddy, buddy.frame
    {
      State(pools.lists, pools.pagePool[..], buddy.FreePages(), buddy.live, pools.small, pools.large)
    }

    ghost predicate NullFree()
      reads this, buddy, buddy.frame
    {
      buddy.base > 0 || 0 in buddy.ReservedPages()
    }

    ghost predicate Valid()
      reads this, pools, pools.pagePool, buddy, buddy.frame
    {
      Linked() && buddy.Valid() && NullFree() && pools.Accounts(buddy.live)
    }

    constructor (buddy: B.Allocator, pagePool: array<int>)
      requires buddy.Valid() && (buddy.base > 0 || 0 in buddy.ReservedPages())
      requires pagePool != buddy.frame && pagePool.Length == buddy.frame.Length
      modifies pagePool
      ensures Valid() && this.buddy == buddy && this.pools.pagePool == pagePool && fresh(pools)
      ensures pools.small == map[] && pools.large == map[] && pools.lists == seq(NUM_POOLS, _ => [])
      ensures forall p :: 0 <= p < pagePool.Length ==> pagePool[p] == -1
    {
      this.buddy := buddy;
      this.pools := new Pools(buddy.base, pagePool, buddy.live);
    }

    /** buddy_alloc, with what its block means for the page owners. */
    method GrabBlock(size: nat) returns (ptr: nat, ghost block: Option<nat>, ghost order: nat)
      requires Valid() && 0 < size < WORD
      modifies buddy, buddy.frame
      ensures Linked() && buddy.Valid() && NullFree() && pools.Accounts(old(buddy.live))
      ensures B.LeastOrder(B.PagesNeeded(size), order)
      ensures ptr == 0 <==> block.None?
      ensures block.None? <==> order > MAX_ORDER || !HasBlock(old(buddy.FreePages()), order)
      ensures block.None? ==> buddy.live == old(buddy.live) && buddy.FreePages() == old(buddy.FreePages())
      ensures block.Some? ==>
                && ptr == buddy.Addr(block.value) && FreeBlock(old(buddy.FreePages()), block.value, order)
                && buddy.FreePages() == old(buddy.FreePages()) - Pages(block.value, order)
                && block.value !in old(buddy.live) && buddy.live == old(buddy.live)[block.value := order]
                && block.value + Pow2(order) <= pools.pagePool.Length
                && forall p :: block.value <= p < block.value + Pow2(order) ==> pools.pagePool[p] == -1
    {
      ptr, block, order := buddy.Alloc(size);
      if block.Some? {
        FreePagesOwnerless(pools.pagePool[..], old(buddy.frame[..]), old(buddy.live), block.value, order);
      }
    }

    /** The large path of kmalloc. */
    method AllocLarge(size: nat) returns (ptr: nat, ghost order: nat)
      requires Valid() && 0 < size < WORD
      modifies pools, pools.pagePool, buddy, buddy.frame
      ensures Valid() && pools.small == old(pools.small)
      ensures B.LeastOrder(B.PagesNeeded(size), order)
      ensures ptr == 0 <==> order > MAX_ORDER || !HasBlock(old(buddy.FreePages()), order)
      ensures ptr == 0 ==> Contents() == old(Contents())
      ensures ptr != 0 ==>
                && buddy.base <= ptr == buddy.Addr(buddy.Index(ptr)) && buddy.Index(ptr) !in old(pools.large)
                && TookBlock(old(Contents()), size, buddy.Index(ptr), order, Contents())
    {
      hide B.Allocator.Valid, Pools.Accounts, HasBlock, FreeBlock, B.LeastOrder, B.PagesNeeded;
      ghost var block;
      ptr, block, order := GrabBlock(size);
      if ptr != 0 {
        AddressIndex(buddy.base, block.value);
        pools.EnterLarge(buddy.Index(ptr), size, order, old(buddy.live));
      }
    }

    /** Fetch a page for pool c. */
    method Refill(c: nat) returns (ok: bool, ghost page: nat)
      requires Valid() && c < NUM_POOLS && pools.lists[c] == []
      modifies pools, pools.pagePool, buddy, buddy.frame
      ensures Valid() && |old(pools.lists)| == NUM_POOLS
      ensures ok <==> old(buddy.FreePages()) != {}
      ensures !ok ==> Contents() == old(Contents())
      ensures ok ==>
                && page in old(buddy.FreePages()) && page < pools.pagePool.Length && pools.lists[c] != []
                && Contents() == Refilled(old(Contents()), buddy.base, c, page)
    {
      hide B.Allocator.Valid, Pools.Accounts, HasBlock, FreeBlock, B.LeastOrder, B.PagesNeeded, Pow2, Sliced;
      ListsOf(this);
      var ptr, block, order := GrabBlock(PAGE_SIZE);
      OnePage(order, old(buddy.FreePages()));
      ok, page := ptr != 0, 0;
      if ok {
        AddressIndex(buddy.base, block.value);
        page := block.value;
        pools.EnterPage(buddy.Index(ptr), c, old(buddy.live));
      }
    }

    /** The small path of kmalloc. */
    method AllocSmall(size: nat, c: nat) returns (ptr: nat)
      requires Valid() && LeastClass(size, c)
      modifies pools, pools.pagePool, buddy, buddy.frame
      ensures Valid() && pools.large == old(pools.large)
      ensures ptr == 0 <==> old(pools.lists)[c] == [] && old(buddy.FreePages()) == {}
      ensures ptr == 0 ==> Contents() == old(Contents())
      ensures ptr != 0 ==>
                && buddy.base <= ptr && ptr !in old(pools.small)
                && TookChunk(old(Contents()), buddy.base, size, c, ptr, Contents())
    {
      hide Valid, Popped, Refilled;
      ListsOf(this);
      ghost var page;
      if pools.lists[c] == [] {
        var ok;
        ok, page := Refill(c);
        if !ok {
          return 0;
        }
        RefilledLists(old(Contents()), buddy.base, c, page);
      }
      ptr := PopChunk(c, size);
      assert old(pools.lists)[c] == [] ==> TookPage(old(Contents()), buddy.base, size, c, page, ptr, Contents());
    }

    /** Hand out the first free chunk of class c. */
    method PopChunk(c: nat, size: nat) returns (ptr: nat)
      requires Valid() && c < NUM_POOLS && |pools.lists| == NUM_POOLS && pools.lists[c] != [] && size <= ChunkSize(c)
      modifies pools
      ensures Valid() && Contents() == Popped(old(Contents()), c, size)
      ensures ptr == old(pools.lists)[c][0] && ptr != 0 && buddy.base <= ptr && ptr !in old(pools.small)
      ensures pools.large == old(pools.large)
    {
      ptr := pools.Take(c, size, buddy.live);
      ChunkNotNull(buddy, pools.pagePool[..], ptr, c);
    }

    /** ptr was handed out and not freed since. */
    ghost predicate LivePointer(ptr: nat)
      reads this, pools, buddy
    {
      IsLive(buddy.base, pools.small, pools.large, ptr)
    }

    /** kmalloc. */
    method Alloc(size: nat) returns (ptr: nat)
      requires Valid() && size < WORD
      modifies pools, pools.pagePool, buddy, buddy.frame
      ensures Valid()
      ensures ptr != 0 <==> Servable(old(pools.lists), old(buddy.FreePages()), size)
      ensures ptr == 0 ==> Contents() == old(Contents())
      ensures ptr != 0 ==> size > 0 && LivePointer(ptr) && Obtained(old(Contents()), buddy.base, size, ptr, Contents())
    {
      if size == 0 {
        return 0;
      }
      var c := FindPool(size);
      LargestChunk();
      if c < 0 {
        ghost var order;
        ptr, order := AllocLarge(size);
        ServableLarge(old(pools.lists), old(buddy.FreePages()), size, order);
      } else {
        ServableSmall(pools.lists, buddy.FreePages(), size, c);
        ptr := AllocSmall(size, c);
      }
    }

    /** kfree of NULL or of a live pointer: the page owner routes it back where it came from. */
    method Free(ptr: nat)
      requires Valid() && (ptr == 0 || LivePointer(ptr))
      modifies pools, pools.pagePool, buddy, buddy.frame
      ensures Valid()
      ensures ptr == 0 ==> Contents() == old(Contents())
      ensures ptr != 0 ==> Released(old(Contents()), buddy.base, ptr, Contents())
    {
      if ptr == 0 {
        return;
      }
      Route(buddy.base, pools.pagePool[..], buddy.live, pools.lists, pools.small, pools.large, ptr);
      var pageBase := ptr / PAGE_SIZE * PAGE_SIZE;
      var page: nat := buddy.Index(pageBase);
      var c := pools.pagePool[page];
      if c < 0 {
        FreeBlockAt(ptr, page);
      } else {
        pools.Give(ptr, c, buddy.live);
      }
    }

    /** Give a large block back to the page frames. */
    method FreeBlockAt(ptr: nat, ghost page: nat)
      requires Valid() && ptr != 0 && ptr !in pools.small && page in pools.large && page in buddy.live
      requires ptr == buddy.Addr(page)
      modifies pools, buddy, buddy.frame
      ensures Valid() && Released(old(Contents()), buddy.base, ptr, Contents())
    {
      AddressIndex(buddy.base, page);
      B.LiveAddress(buddy, page);
      buddy.Free(ptr);
      pools.DropLarge(page, old(buddy.live));
    }
  }

  /**
   * What kmalloc needs: a free chunk of the least sufficient class or a page to slice; for sizes above
   * the largest class, a free block of the least sufficient order.
   */
  ghost predicate Servable(lists: seq<seq<nat>>, free: set<nat>, size: nat)
    requires |lists| == NUM_POOLS
  {
    if size <= 2048 then size > 0 && exists c: nat :: LeastClass(size, c) && (lists[c] != [] || free != {})
    else exists k: nat :: B.LeastOrder(B.PagesNeeded(size), k) && k <= MAX_ORDER && HasBlock(free, k)
  }

  lemma ServableSmall(lists: seq<seq<nat>>, free: set<nat>, size: nat, c: nat)
    requires |lists| == NUM_POOLS && LeastClass(size, c) && 0 < size <= 2048
    ensures Servable(lists, free, size) <==> lists[c] != [] || free != {}
  {
    assert forall d: nat :: LeastClass(size, d) ==> d == c;
  }

  lemma ServableLarge(lists: seq<seq<nat>>, free: set<nat>, size: nat, k: nat)
    requires |lists| == NUM_POOLS && B.LeastOrder(B.PagesNeeded(size), k) && size > 2048
    ensures Servable(lists, free, size) <==> k <= MAX_ORDER && HasBlock(free, k)
  {
    assert forall j: nat :: B.LeastOrder(B.PagesNeeded(size), j) ==> j == k;
  }

  lemma LargestChunk()
    ensures ChunkSize(NUM_POOLS - 1) == 2048
    ensures forall c: nat :: c < NUM_POOLS ==> ChunkSize(c) <= 2048
  {
    assert Pow2(11) == 8 * Pow2(8) && Pow2(8) == 8 * Pow2(5) && Pow2(5) == 8 * Pow2(2);
    forall c: nat | c < NUM_POOLS ensures ChunkSize(c) <= 2048 {
      Pow2Monotone(c + 4, 11);
    }
  }

  /** The owner of a live pointer's page tells the allocator it came from. */
  lemma Route(base: nat, pagePool: seq<int>, live: map<nat, nat>, pools: seq<seq<nat>>, small: map<nat, Chunk>,
              large: map<nat, nat>, ptr: nat)
    requires Accounted(base, pagePool, live, pools, small, large) && base % PAGE_SIZE == 0
    requires ptr in small ||
             (base <= ptr && (ptr - base) / PAGE_SIZE in large && ptr == base + (ptr - base) / PAGE_SIZE * PAGE_SIZE)
    ensures base <= ptr / PAGE_SIZE * PAGE_SIZE
    ensures var page := (ptr / PAGE_SIZE * PAGE_SIZE - base) / PAGE_SIZE;
            && page == (ptr - base) / PAGE_SIZE && page < |pagePool|
            && (ptr in small <==> pagePool[page] >= 0)
            && (ptr in small ==> pagePool[page] == small[ptr].pool)
            && (ptr !in small ==> page in large && page in live && ptr == base + page * PAGE_SIZE)
  {
    if ptr in small {
      assert IsChunk(base, pagePool, ptr, small[ptr].pool);
    }
    PageBase(base, ptr);
  }

  lemma PageBase(base: nat, ptr: nat)
    requires base % PAGE_SIZE == 0 && base <= ptr
    ensures base <= ptr / PAGE_SIZE * PAGE_SIZE
    ensures (ptr / PAGE_SIZE * PAGE_SIZE - base) / PAGE_SIZE == (ptr - base) / PAGE_SIZE
  {
    var b := base / PAGE_SIZE;
    assert base == b * PAGE_SIZE;
    assert (ptr - base) / PAGE_SIZE == ptr / PAGE_SIZE - b;
  }

  lemma OnePage(order: nat, f: set<nat>)
    requires B.LeastOrder(B.PagesNeeded(PAGE_SIZE), order)
    ensures order == 0
    ensures HasBlock(f, 0) <==> f != {}
    ensures forall i: nat :: FreeBlock(f, i, 0) ==> i in f
  {
    assert B.PagesNeeded(PAGE_SIZE) == 1 && Pow2(0) == 1;
    if i :| i in f {
      assert FreeBlock(f, i, 0);
    }
    if i: nat :| FreeBlock(f, i, 0) {
      assert i in f;
    }
  }

  lemma SlicesExist(page: nat, c: nat)
    requires c < NUM_POOLS
    ensures Sliced(page, ChunkSize(c), NumChunks(c)) != []
  {
    ChunksPerPage(c);
  }

  lemma GrowPool(base: nat, pagePool: seq<int>, live: map<nat, nat>, pools: seq<seq<nat>>, small: map<nat, Chunk>,
                 large: map<nat, nat>, p: nat, c: nat)
    requires Accounted(base, pagePool, live, pools, small, large)
    requires c < NUM_POOLS && pools[c] == [] && p < |pagePool| && pagePool[p] < 0 && p !in live
    ensures Accounted(base, pagePool[p := c], live[p := 0],
                      pools[c := Sliced(base + p * PAGE_SIZE, ChunkSize(c), NumChunks(c))], small, large)
  {
    AddPage(base, pagePool, pools, small, p, c);
  }

  lemma TakeSmall(base: nat, pagePool: seq<int>, live: map<nat, nat>, pools: seq<seq<nat>>, small: map<nat, Chunk>,
                  large: map<nat, nat>, c: nat, size: nat)
    requires Accounted(base, pagePool, live, pools, small, large)
    requires c < NUM_POOLS && pools[c] != [] && size <= ChunkSize(c)
    ensures var a := pools[c][0];
            && a !in small && IsChunk(base, pagePool, a, c)
            && Accounted(base, pagePool, live, pools[c := pools[c][1..]], small[a := Chunk(c, size)], large)
  {
    TakeChunk(base, pagePool, pools, small, c, size);
  }

  lemma ChunkNotNull(buddy: B.Allocator, pagePool: seq<int>, a: nat, c: nat)
    requires buddy.Valid() && (buddy.base > 0 || 0 in buddy.ReservedPages())
    requires PoolPagesLive(pagePool, buddy.live) && IsChunk(buddy.base, pagePool, a, c) &&
             |pagePool| == buddy.frame.Length
    ensures a != 0
  {
    if buddy.base == 0 {
      B.ReservedNotLive(buddy.frame[..], buddy.live, 0);
    }
  }

  lemma Covers(size: nat, order: nat)
    requires 0 < size < WORD && B.LeastOrder(B.PagesNeeded(size), order)
    ensures Ample(size, order)
  {
    B.RequestCovered(size, order);
  }

  lemma AddressIndex(base: nat, i: nat)
    ensures (base + i * PAGE_SIZE - base) / PAGE_SIZE == i && (base + i * PAGE_SIZE - base) % PAGE_SIZE == 0
  {
  }

  /** No pool owns a page of a free block. */
  lemma FreePagesOwnerless(pagePool: seq<int>, frame: seq<int>, live: map<nat, nat>, i: nat, k: nat)
    requires PoolPagesLive(pagePool, live) && B.LiveAgrees(frame, live) && |frame| == |pagePool|
    requires FreeBlock(FreeSet(frame), i, k)
    ensures i + Pow2(k) <= |frame|
    ensures forall p :: i <= p < i + Pow2(k) ==> pagePool[p] == -1
  {
    assert i + Pow2(k) - 1 in FreeSet(frame);
    B.LivePagesNotFree(frame, live);
    forall p | i <= p < i + Pow2(k) ensures pagePool[p] == -1 {
      assert p in FreeSet(frame);
      assert p in live ==> p in Pages(p, live[p]);
    }
  }

  lemma TakeLarge(base: nat, pagePool: seq<int>, live: map<nat, nat>, pools: seq<seq<nat>>, small: map<nat, Chunk>,
                  large: map<nat, nat>, i: nat, k: nat, size: nat)
    requires Accounted(base, pagePool, live, pools, small, large)
    requires i < |pagePool| && pagePool[i] < 0 && i !in live
    requires Ample(size, k)
    ensures i !in large
    ensures Accounted(base, pagePool, live[i := k], pools, small, large[i := size])
  {
  }

  // ---- what the invariant means for the holders of pointers ----

  /** The bytes [start, start + len) of one live pointer. */
  datatype Region = Region(start: nat, len: nat)

  function ChunkRegion(a: nat, c: nat): Region {
    Region(a, ChunkSize(c))
  }

  function BlockRegion(base: nat, i: nat, k: nat): Region {
    Region(base + i * PAGE_SIZE, Pow2(k) * PAGE_SIZE)
  }

  predicate Disjoint(r: Region, s: Region) {
    r.start + r.len <= s.start || s.start + s.len <= r.start
  }

  /** A chunk lies within its page and its offset is a multiple of its size. */
  lemma ChunkInPage(base: nat, pagePool: seq<int>, a: nat, c: nat)
    requires IsChunk(base, pagePool, a, c) && c < NUM_POOLS
    ensures var off := (a - base) % PAGE_SIZE; Aligned(off, c + 4) && off + ChunkSize(c) <= PAGE_SIZE
  {
    assert Aligned(0, 12) by { AlignedIsMultiple(0, 12); }
    assert Pow2(12) == PAGE_SIZE by {
      assert Pow2(12) == 8 * Pow2(9) && Pow2(9) == 8 * Pow2(6) && Pow2(6) == 8 * Pow2(3);
    }
    Laminar((a - base) % PAGE_SIZE, c + 4, 0, 12);
  }

  lemma ChunksDisjoint(base: nat, pagePool: seq<int>, a: nat, c: nat, b: nat, d: nat)
    requires IsChunk(base, pagePool, a, c) && IsChunk(base, pagePool, b, d) && c < NUM_POOLS && d < NUM_POOLS && a != b
    ensures Disjoint(ChunkRegion(a, c), ChunkRegion(b, d))
  {
    ChunkInPage(base, pagePool, a, c);
    ChunkInPage(base, pagePool, b, d);
    if (a - base) / PAGE_SIZE == (b - base) / PAGE_SIZE {
      Laminar((a - base) % PAGE_SIZE, c + 4, (b - base) % PAGE_SIZE, c + 4);
    }
  }

  lemma ChunkBlockDisjoint(base: nat, pagePool: seq<int>, live: map<nat, nat>, a: nat, c: nat, i: nat)
    requires IsChunk(base, pagePool, a, c) && c < NUM_POOLS && PoolPagesLive(pagePool, live) && B.LiveDisjoint(live)
    requires i in live && i < |pagePool| && pagePool[i] < 0
    ensures Disjoint(ChunkRegion(a, c), BlockRegion(base, i, live[i]))
  {
    ChunkInPage(base, pagePool, a, c);
    var p := (a - base) / PAGE_SIZE;
    PagesApart(live, p, i);
  }

  lemma PagesApart(live: map<nat, nat>, i: nat, j: nat)
    requires i in live && j in live && i != j && B.LiveDisjoint(live)
    ensures i + Pow2(live[i]) <= j || j + Pow2(live[j]) <= i
  {
    var p := if i < j then j else i;
    assert p in Pages(p, live[p]);
    assert Pages(i, live[i]) !! Pages(j, live[j]);
  }

  /**
   * The regions of distinct live pointers never overlap, each is as large as was asked for (unless
   * rounding the size up wraps around), and a chunk is aligned to its size.
   */
  ghost predicate Safe(base: nat, live: map<nat, nat>, small: map<nat, Chunk>, large: map<nat, nat>)
    requires forall i :: i in large ==> i in live
  {
    && (forall a, b :: a in small && b in small && a != b ==>
        Disjoint(ChunkRegion(a, small[a].pool), ChunkRegion(b, small[b].pool)))
    && (forall a, i :: a in small && i in large ==>
        Disjoint(ChunkRegion(a, small[a].pool), BlockRegion(base, i, live[i])))
    && (forall i, j :: i in large && j in large && i != j ==>
        Disjoint(BlockRegion(base, i, live[i]), BlockRegion(base, j, live[j])))
    && (forall a :: a in small ==> small[a].asked <= ChunkSize(small[a].pool) && a % ChunkSize(small[a].pool) == 0)
    && (forall i :: i in large && large[i] <= WORD - PAGE_SIZE ==> large[i] <= BlockRegion(base, i, live[i]).len)
  }

  /** Two-level heap safety. */
  lemma LiveRegions(base: nat, pagePool: seq<int>, live: map<nat, nat>, pools: seq<seq<nat>>, small: map<nat, Chunk>,
                    large: map<nat, nat>)
    requires Accounted(base, pagePool, live, pools, small, large) && B.LiveDisjoint(live) && base % PAGE_SIZE == 0
    ensures Safe(base, live, small, large)
  {
    forall a | a in small ensures IsChunk(base, pagePool, a, small[a].pool) && a % ChunkSize(small[a].pool) == 0 {
      assert IsChunk(base, pagePool, a, small[a].pool);
      ChunkAligned(base, pagePool, a, small[a].pool);
    }
    forall a, b | a in small && b in small && a != b
      ensures Disjoint(ChunkRegion(a, small[a].pool), ChunkRegion(b, small[b].pool))
    {
      ChunksDisjoint(base, pagePool, a, small[a].pool, b, small[b].pool);
    }
    forall a, i | a in small && i in large
      ensures Disjoint(ChunkRegion(a, small[a].pool), BlockRegion(base, i, live[i]))
    {
      ChunkBlockDisjoint(base, pagePool, live, a, small[a].pool, i);
    }
    forall i, j | i in large && j in large && i != j
      ensures Disjoint(BlockRegion(base, i, live[i]), BlockRegion(base, j, live[j]))
    {
      PagesApart(live, i, j);
    }
  }

  lemma ChunkAligned(base: nat, pagePool: seq<int>, a: nat, c: nat)
    requires IsChunk(base, pagePool, a, c) && c < NUM_POOLS && base % PAGE_SIZE == 0
    ensures a % ChunkSize(c) == 0
  {
    ChunksPerPage(c);
    var size, n := ChunkSize(c), Pow2(8 - c);
    var off, page := (a - base) % PAGE_SIZE, base / PAGE_SIZE + (a - base) / PAGE_SIZE;
    AlignedIsMultiple(off, c + 4);
    Quotient(off, size);
    assert a == page * PAGE_SIZE + off;
    MulAssoc(page, n, size);
    SumOfMultiples(page * n, off / size, size);
  }

  lemma SumOfMultiples(x: nat, y: nat, m: nat)
    requires m > 0
    ensures (x * m + y * m) % m == 0
  {
    assert x * m + y * m == (x + y) * m;
    MulMod(x + y, m);
  }

  ghost function FreeOn(base: nat, p: nat, c: nat, pool: seq<nat>): set<nat> {
    set a | a in pool && OnPage(base, p, c, a)
  }

  ghost function HeldOn(base: nat, p: nat, c: nat, small: map<nat, Chunk>): set<nat> {
    set a | a in small && OnPage(base, p, c, a)
  }

  /** The chunks of a pool page are split between its free list and its holders, none lost and none invented. */
  lemma ChunksConserved(base: nat, pagePool: seq<int>, pools: seq<seq<nat>>, small: map<nat, Chunk>, p: nat, c: nat)
    requires ChunksSplit(base, pagePool, pools, small) && c < NUM_POOLS && p < |pagePool| && pagePool[p] == c
    ensures |FreeOn(base, p, c, pools[c])| + |HeldOn(base, p, c, small)| == NumChunks(c)
  {
    var free, held := FreeOn(base, p, c, pools[c]), HeldOn(base, p, c, small);
    var slices := Elements(Sliced(base + p * PAGE_SIZE, ChunkSize(c), NumChunks(c)));
    SlicedCount(base + p * PAGE_SIZE, ChunkSize(c), NumChunks(c));
    forall a: nat
      ensures a in slices <==> a in free || a in held
      ensures a in free ==> a !in held
    {
      PageChunks(base, p, c, a);
      OnPoolPage(base, pagePool, pools, small, p, c, a);
    }
    DisjointSum(free, held, slices);
  }

  lemma DisjointSum(a: set<nat>, b: set<nat>, c: set<nat>)
    requires forall x: nat :: x in c <==> x in a || x in b
    requires forall x: nat :: x in a ==> x !in b
    ensures |a| + |b| == |c|
  {
    assert a + b == c && a !! b;
  }

  lemma OnPoolPage(base: nat, pagePool: seq<int>, pools: seq<seq<nat>>, small: map<nat, Chunk>, p: nat, c: nat, a: nat)
    requires ChunksSplit(base, pagePool, pools, small) && c < NUM_POOLS && p < |pagePool| && pagePool[p] == c
    ensures OnPage(base, p, c, a) ==> (a in pools[c] || a in small) && !(a in pools[c] && a in small)
  {
    assert OnPage(base, p, c, a) ==> IsChunk(base, pagePool, a, c);
  }

  function Elements(s: seq<nat>): set<nat> {
    set a | a in s
  }

  lemma {:induction false} SlicedCount(page: nat, size: nat, n: nat)
    requires size > 0
    ensures |Elements(Sliced(page, size, n))| == n
  {
    if n > 0 {
      SlicedCount(page, size, n - 1);
      SlicedMembers(page, size, n - 1);
      MulSucc(n - 1, size);
      ElementsCons(page + (n - 1) * size, Sliced(page, size, n - 1));
    }
  }

  lemma ElementsCons(x: nat, s: seq<nat>)
    requires x !in s
    ensures |Elements([x] + s)| == 1 + |Elements(s)|
  {
    assert Elements([x] + s) == {x} + Elements(s);
  }

  // ---- runs of the heap ----

  datatype Request = Kmalloc(size: nat) | Kfree(which: nat)

  /** The client holds exactly the live pointers, each once. */
  ghost predicate Holds(base: nat, small: map<nat, Chunk>, large: map<nat, nat>, held: seq<nat>) {
    NoDup(held) && forall p: nat :: p in held <==> IsLive(base, small, large, p)
  }

  /** The heap between two requests, and the client's pointers. */
  datatype Moment = Moment(state: State, held: seq<nat>)

  ghost function Now(h: Heap, held: seq<nat>): Moment
    reads h, h.pools, h.pools.pagePool, h.buddy, h.buddy.frame
  {
    Moment(h.Contents(), held)
  }

  /** One request with the pointer it returns; an allocation fails exactly if nothing can serve it. */
  ghost predicate Serves(m: Moment, request: Request, base: nat, ptr: nat, m': Moment) {
    match request
    case Kmalloc(size) =>
      && |m.state.lists| == NUM_POOLS && (ptr != 0 <==> Servable(m.state.lists, m.state.free, size))
      && if ptr == 0 then m' == m
         else m'.held == m.held + [ptr] && Obtained(m.state, base, size, ptr, m'.state)
    case Kfree(which) =>
      && ptr == 0
      && if which < |m.held| then m'.held == Without(m.held, which) && Released(m.state, base, m.held[which], m'.state)
         else m' == m
  }

  /** trace[0], script[0], trace[1], .. is a run with these results. */
  ghost predicate IsRun(trace: seq<Moment>, script: seq<Request>, base: nat, ptrs: seq<nat>) {
    && |trace| == |script| + 1 && |ptrs| == |script|
    && forall i :: 0 <= i < |script| ==> Serves(trace[i], script[i], base, ptrs[i], trace[i + 1])
  }

  lemma RunGrows(trace: seq<Moment>, script: seq<Request>, base: nat, ptrs: seq<nat>, request: Request, ptr: nat,
                 m: Moment)
    requires IsRun(trace, script, base, ptrs) && Serves(trace[|script|], request, base, ptr, m)
    ensures IsRun(trace + [m], script + [request], base, ptrs + [ptr])
  {
    hide Serves;
  }

  ghost predicate InLarge(s: State, p: nat) {
    exists i :: i in s.large && i in s.live && p in Pages(i, s.live[i])
  }

  predicate InPool(s: State, p: nat) {
    p < |s.owner| && s.owner[p] >= 0
  }

  /** Page p is free, a pool's, or in a block handed out. */
  ghost predicate OfHeap(s: State, p: nat) {
    p in s.free || InPool(s, p) || InLarge(s, p)
  }

  /** No page is two of these. */
  ghost predicate PagesSplit(s: State) {
    && (forall i :: i in s.large ==> i in s.live && i in Pages(i, s.live[i]))
    && (forall p: nat :: p in s.free ==> !InPool(s, p) && !InLarge(s, p))
    && (forall p: nat :: InPool(s, p) ==> !InLarge(s, p))
  }

  lemma ContentsSplit(h: Heap)
    requires h.Valid()
    ensures PagesSplit(h.Contents())
  {
    var s, live := h.Contents(), h.buddy.live;
    B.LivePagesNotFree(h.buddy.frame[..], live);
    forall p: nat | InPool(s, p) ensures p !in s.free && !InLarge(s, p) {
      assert p in Pages(p, live[p]);
      forall i | i in s.large ensures p !in Pages(i, live[i]) {
        assert Pages(i, live[i]) !! Pages(p, live[p]);
      }
    }
  }

  /** The same pages are the heap's. */
  ghost predicate SamePages(s: State, s': State) {
    forall p: nat :: OfHeap(s', p) <==> OfHeap(s, p)
  }

  lemma SameSelf(s: State)
    ensures SamePages(s, s)
  {
  }

  lemma ObtainedConserves(s: State, base: nat, size: nat, ptr: nat, s': State)
    requires PagesSplit(s) && Obtained(s, base, size, ptr, s')
    ensures SamePages(s, s')
  {
    if size <= 2048 {
      var c: nat :| LeastClass(size, c) && TookChunk(s, base, size, c, ptr, s');
      ChunkConserves(s, base, size, c, ptr, s');
    } else {
      var i := (ptr - base) / PAGE_SIZE;
      var k: nat :| B.LeastOrder(B.PagesNeeded(size), k) && TookBlock(s, size, i, k, s');
      forall p: nat ensures OfHeap(s', p) <==> OfHeap(s, p) {
        MoreLarge(s, s', i, p);
      }
    }
  }

  lemma ChunkConserves(s: State, base: nat, size: nat, c: nat, ptr: nat, s': State)
    requires PagesSplit(s) && TookChunk(s, base, size, c, ptr, s')
    ensures SamePages(s, s')
  {
    hide Sliced, NumChunks, ChunkSize;
    if s.lists[c] == [] {
      var page: nat :| TookPage(s, base, size, c, page, ptr, s');
      assert !InLarge(s, page);
      forall p: nat ensures OfHeap(s', p) <==> OfHeap(s, p) {
        SameLarge(s, s', p);
      }
    } else {
      forall p: nat ensures OfHeap(s', p) <==> OfHeap(s, p) {
        SameLarge(s, s', p);
      }
    }
  }

  lemma ReleasedConserves(s: State, base: nat, ptr: nat, s': State)
    requires PagesSplit(s) && Released(s, base, ptr, s')
    requires ptr in s.small || (base <= ptr && (ptr - base) / PAGE_SIZE in s.large)
    ensures SamePages(s, s')
  {
    forall p: nat ensures OfHeap(s', p) <==> OfHeap(s, p) {
      if ptr in s.small {
        SameLarge(s, s', p);
      } else {
        MoreLarge(s', s, (ptr - base) / PAGE_SIZE, p);
      }
    }
  }

  lemma SameLarge(s: State, s': State, p: nat)
    requires s'.large == s.large && forall i :: i in s.large ==> i in s.live && i in s'.live && s'.live[i] == s.live[i]
    ensures InLarge(s', p) <==> InLarge(s, p)
  {
  }

  /** s' has one large block more than s. */
  lemma MoreLarge(s: State, s': State, i: nat, p: nat)
    requires i !in s.large && i in s'.live && s'.large.Keys == s.large.Keys + {i}
    requires forall j :: j in s.large ==> j in s.live && j in s'.live && s'.live[j] == s.live[j]
    ensures InLarge(s', p) <==> InLarge(s, p) || p in Pages(i, s'.live[i])
  {
    if j :| j in s.large && j in s.live && p in Pages(j, s.live[j]) {
      assert j in s'.large && p in Pages(j, s'.live[j]);
    }
  }

  /** No request adds a page to the heap or loses one. */
  ghost predicate Conserved(trace: seq<Moment>) {
    forall i :: 0 <= i < |trace| ==> SamePages(trace[0].state, trace[i].state)
  }

  lemma ConservedGrows(trace: seq<Moment>, m: Moment)
    requires trace != [] && Conserved(trace)
    requires SamePages(trace[|trace| - 1].state, m.state)
    ensures Conserved(trace + [m])
  {
    hide OfHeap;
  }

  /**
   * Any client of the heap: a script of allocations and of frees of pointers it still holds. The trace says
   * what each request did; the client's pointers are exactly the live ones, their regions are safe, and free
   * pages, pool pages and large blocks together are the same pages throughout.
   */
  method Run(h: Heap, script: seq<Request>) returns (ptrs: seq<nat>, held: seq<nat>, ghost trace: seq<Moment>)
    requires h.Valid() && h.pools.small == map[] && h.pools.large == map[]
    requires forall x :: x in script && x.Kmalloc? ==> x.size < WORD
    modifies h.pools, h.pools.pagePool, h.buddy, h.buddy.frame
    ensures h.Valid() && Holds(h.buddy.base, h.pools.small, h.pools.large, held)
    ensures IsRun(trace, script, h.buddy.base, ptrs)
    ensures trace[0] == old(Now(h, [])) && trace[|script|] == Now(h, held)
    ensures Safe(h.buddy.base, h.buddy.live, h.pools.small, h.pools.large)
    ensures Conserved(trace) && PagesSplit(h.Contents())
  {
    hide Serves, SamePages, PagesSplit;
    ptrs, held, trace := [], [], [Now(h, [])];
    SameSelf(h.Contents());
    for n := 0 to |script|
      invariant h.Valid() && Holds(h.buddy.base, h.pools.small, h.pools.large, held)
      invariant IsRun(trace, script[..n], h.buddy.base, ptrs)
      invariant trace[0] == old(Now(h, [])) && trace[n] == Now(h, held) && Conserved(trace)
    {
      assert script[n] in script && script[..n + 1] == script[..n] + [script[n]];
      var ptr;
      held, ptr := Serve(h, script[n], held);
      RunGrows(trace, script[..n], h.buddy.base, ptrs, script[n], ptr, Now(h, held));
      ConservedGrows(trace, Now(h, held));
      ptrs, trace := ptrs + [ptr], trace + [Now(h, held)];
    }
    assert script[..|script|] == script;
    ContentsSplit(h);
    LiveRegions(h.buddy.base, h.pools.pagePool[..], h.buddy.live, h.pools.lists, h.pools.small, h.pools.large);
  }

  method Serve(h: Heap, request: Request, held: seq<nat>) returns (held': seq<nat>, ptr: nat)
    requires h.Valid() && Holds(h.buddy.base, h.pools.small, h.pools.large, held)
    requires request.Kmalloc? ==> request.size < WORD
    modifies h.pools, h.pools.pagePool, h.buddy, h.buddy.frame
    ensures h.Valid() && Holds(h.buddy.base, h.pools.small, h.pools.large, held')
    ensures Serves(old(Now(h, held)), request, h.buddy.base, ptr, Now(h, held'))
    ensures SamePages(old(h.Contents()), h.Contents())
  {
    hide Heap.Valid, Holds, Released, Obtained, OfHeap;
    match request {
      case Kmalloc(size) => held', ptr := ServeAlloc(h, size, held);
      case Kfree(which) =>
        held', ptr := held, 0;
        if which < |held| {
          held' := ServeFree(h, which, held);
        }
    }
  }

  method ServeAlloc(h: Heap, size: nat, held: seq<nat>) returns (held': seq<nat>, ptr: nat)
    requires h.Valid() && Holds(h.buddy.base, h.pools.small, h.pools.large, held) && size < WORD
    modifies h.pools, h.pools.pagePool, h.buddy, h.buddy.frame
    ensures h.Valid() && Holds(h.buddy.base, h.pools.small, h.pools.large, held')
    ensures Serves(old(Now(h, held)), Kmalloc(size), h.buddy.base, ptr, Now(h, held'))
    ensures SamePages(old(h.Contents()), h.Contents())
  {
    hide Heap.Valid, Holds, Servable, IsLive, SamePages, PagesSplit;
    held' := held;
    ListsOf(h);
    ContentsSplit(h);
    SameSelf(h.Contents());
    ptr := h.Alloc(size);
    if ptr != 0 {
      ObtainedConserves(old(h.Contents()), h.buddy.base, size, ptr, h.Contents());
      NotBoth(h, ptr);
      held' := held + [ptr];
      if size <= 2048 {
        HoldsChunk(h.buddy.base, old(h.pools.small), h.pools.small, h.pools.large, held, ptr, size);
      } else {
        HoldsBlock(h.buddy.base, h.pools.small, old(h.pools.large), held, ptr, size);
      }
    }
  }

  method ServeFree(h: Heap, which: nat, held: seq<nat>) returns (held': seq<nat>)
    requires h.Valid() && Holds(h.buddy.base, h.pools.small, h.pools.large, held) && which < |held|
    modifies h.pools, h.pools.pagePool, h.buddy, h.buddy.frame
    ensures h.Valid() && Holds(h.buddy.base, h.pools.small, h.pools.large, held')
    ensures held' == Without(held, which) && Released(old(h.Contents()), h.buddy.base, held[which], h.Contents())
    ensures SamePages(old(h.Contents()), h.Contents())
  {
    hide Heap.Valid, Holds, Without, IsLive, SamePages, PagesSplit;
    ContentsSplit(h);
    HeldIsLive(h.buddy.base, h.pools.small, h.pools.large, held, which);
    ChunkPool(h, held[which]);
    NotBoth(h, held[which]);
    HoldsLess(h.buddy.base, h.pools.small, h.pools.large, held, which);
    held' := Without(held, which);
    NeverNull(h, held[which]);
    h.Free(held[which]);
    ReleasedConserves(old(h.Contents()), h.buddy.base, held[which], h.Contents());
  }

  lemma ListsOf(h: Heap)
    requires h.Valid()
    ensures |h.pools.lists| == NUM_POOLS
  {
  }

  lemma ChunkPool(h: Heap, ptr: nat)
    requires h.Valid()
    ensures ptr in h.pools.small ==> h.pools.small[ptr].pool < |h.pools.lists|
  {
  }

  lemma HeldIsLive(base: nat, small: map<nat, Chunk>, large: map<nat, nat>, held: seq<nat>, which: nat)
    requires Holds(base, small, large, held) && which < |held|
    ensures IsLive(base, small, large, held[which])
  {
    assert held[which] in held;
  }

  lemma HoldsChunk(base: nat, small: map<nat, Chunk>, small': map<nat, Chunk>, large: map<nat, nat>, held: seq<nat>,
                   ptr: nat, size: nat)
    requires Holds(base, small, large, held) && base <= ptr && (ptr - base) / PAGE_SIZE !in large
    requires ptr !in small && exists c :: LeastClass(size, c) && small' == small[ptr := Chunk(c, size)]
    ensures Holds(base, small', large, held + [ptr])
  {
    assert !IsLive(base, small, large, ptr);
    forall p: nat ensures p in held + [ptr] <==> IsLive(base, small', large, p) {
      assert p in held <==> IsLive(base, small, large, p);
    }
  }

  lemma HoldsBlock(base: nat, small: map<nat, Chunk>, large: map<nat, nat>, held: seq<nat>, ptr: nat, size: nat)
    requires Holds(base, small, large, held) && base <= ptr && ptr !in small && (ptr - base) / PAGE_SIZE !in large
    requires IsLive(base, small, large[(ptr - base) / PAGE_SIZE := size], ptr)
    ensures Holds(base, small, large[(ptr - base) / PAGE_SIZE := size], held + [ptr])
  {
    assert !IsLive(base, small, large, ptr);
    forall p: nat ensures p in held + [ptr] <==> IsLive(base, small, large[(ptr - base) / PAGE_SIZE := size], p) {
      assert p in held <==> IsLive(base, small, large, p);
    }
  }

  lemma HoldsLess(base: nat, small: map<nat, Chunk>, large: map<nat, nat>, held: seq<nat>, which: nat)
    requires Holds(base, small, large, held) && which < |held| && base <= held[which]
    requires !(held[which] in small && (held[which] - base) / PAGE_SIZE in large)
    ensures var p := held[which];
            if p in small then Holds(base, small - {p}, large, Without(held, which))
            else Holds(base, small, large - {(p - base) / PAGE_SIZE}, Without(held, which))
  {
    WithoutMembers(held, which);
    var p, page := held[which], (held[which] - base) / PAGE_SIZE;
    assert IsLive(base, small, large, p);
    forall q: nat
      ensures p in small ==> (q in Without(held, which) <==> IsLive(base, small - {p}, large, q))
      ensures p !in small ==> (q in Without(held, which) <==> IsLive(base, small, large - {page}, q))
    {
      assert q in held <==> IsLive(base, small, large, q);
    }
  }

  lemma NeverNull(h: Heap, ptr: nat)
    requires h.Valid() && h.LivePointer(ptr)
    ensures ptr != 0
  {
    if ptr in h.pools.small {
      ChunkNotNull(h.buddy, h.pools.pagePool[..], ptr, h.pools.small[ptr].pool);
    } else if h.buddy.base == 0 {
      B.ReservedNotLive(h.buddy.frame[..], h.buddy.live, 0);
    }
  }

  /** No pointer is both a chunk and a large block. */
  lemma NotBoth(h: Heap, ptr: nat)
    requires h.Valid() && h.LivePointer(ptr)
    ensures h.buddy.base <= ptr && !(ptr in h.pools.small && h.buddy.Index(ptr) in h.pools.large)
  {
    if ptr in h.pools.small {
      assert IsChunk(h.pools.base, h.pools.pagePool[..], ptr, h.pools.small[ptr].pool);
    }
  }
}
