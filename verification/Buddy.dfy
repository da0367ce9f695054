/** The page-frame allocator: free-list build, splitting allocation and coalescing free. */
module Buddy {
  import opened Arith
  import opened Blocks
  import opened Frames
  import opened Sequences
  import opened Wrappers

  function RoundDown(x: nat): nat {
    x - x % PAGE_SIZE
  }

  /** (x + PAGE_SIZE - 1) & ~(PAGE_SIZE - 1) on 64-bit words. */
  function RoundUp(x: nat): nat {
    RoundDown((x + PAGE_SIZE - 1) % WORD)
  }

  /** Pages the allocator reserves for a request, computed on 64-bit words. */
  function PagesNeeded(size: nat): nat {
    (size + PAGE_SIZE - 1) % WORD / PAGE_SIZE
  }

  ghost predicate LeastOrder(pages: nat, k: nat) {
    pages <= Pow2(k) && forall j: nat :: j < k ==> Pow2(j) < pages
  }

  method PagesToOrder(pages: nat) returns (order: nat)
    ensures LeastOrder(pages, order)
  {
    order := 0;
    var block := 1;
    while block < pages
      invariant block == Pow2(order)
      invariant forall j: nat :: j < order ==> Pow2(j) < pages
      decreases pages - block
    {
      block := 2 * block;
      order := order + 1;
    }
  }

  /** Rounding up wraps behind the last page. */
  lemma RoundsToZero(x: nat)
    requires WORD - PAGE_SIZE < x < WORD
    ensures RoundUp(x) == 0
  {
    assert (x + PAGE_SIZE - 1) % WORD == x + PAGE_SIZE - 1 - WORD;
  }

  lemma IndexBounds(base: nat, end: nat, lo: nat, hi: nat)
    requires base <= lo <= hi <= end
    ensures (lo - base) / PAGE_SIZE <= (hi - base) / PAGE_SIZE <= (end - base) / PAGE_SIZE
  {
  }

  lemma PageRange(base: nat, end: nat, start: nat, stop: nat, p: nat)
    requires base % PAGE_SIZE == 0 && base <= end && stop <= WORD - PAGE_SIZE && p < (end - base) / PAGE_SIZE
    ensures var lo := if RoundDown(start) < base then base else RoundDown(start);
            var hi := if RoundUp(stop) > end then end else RoundUp(stop);
            lo < hi ==> ((lo - base) / PAGE_SIZE <= p < (hi - base) / PAGE_SIZE
                         <==> base + p * PAGE_SIZE < stop && start < base + p * PAGE_SIZE + PAGE_SIZE)
  {
    hide RoundDown, RoundUp;
    FirstPage(base, start, p);
    LastPage(base, end, stop, p);
  }

  lemma FirstPage(base: nat, start: nat, p: nat)
    requires base % PAGE_SIZE == 0
    ensures var lo := if RoundDown(start) < base then base else RoundDown(start);
            (lo - base) / PAGE_SIZE <= p <==> start < base + p * PAGE_SIZE + PAGE_SIZE
  {
    var b, s := base / PAGE_SIZE, start / PAGE_SIZE;
    assert base == b * PAGE_SIZE && RoundDown(start) == s * PAGE_SIZE;
    assert s >= b ==> (s * PAGE_SIZE - b * PAGE_SIZE) / PAGE_SIZE == s - b;
  }

  lemma LastPage(base: nat, end: nat, stop: nat, p: nat)
    requires base % PAGE_SIZE == 0 && base <= end && stop <= WORD - PAGE_SIZE && p < (end - base) / PAGE_SIZE
    ensures var hi := if RoundUp(stop) > end then end else RoundUp(stop);
            base < hi ==> (p < (hi - base) / PAGE_SIZE <==> base + p * PAGE_SIZE < stop)
  {
    var b, u := base / PAGE_SIZE, (stop + PAGE_SIZE - 1) / PAGE_SIZE;
    assert base == b * PAGE_SIZE && RoundUp(stop) == u * PAGE_SIZE;
    assert u >= b ==> (u * PAGE_SIZE - b * PAGE_SIZE) / PAGE_SIZE == u - b;
  }

  /** The pages of the live blocks: live maps the head of each to its order. */
  ghost predicate LiveAgrees(frame: seq<int>, live: map<nat, nat>) {
    && (forall h :: h in live ==> live[h] <= MAX_ORDER && Aligned(h, live[h]) && h + Pow2(live[h]) <= |frame|)
    && (forall h, p: nat :: h in live && p in Pages(h, live[h]) ==> frame[p] == AllocTag(h, live[h]))
  }

  ghost predicate LiveDisjoint(live: map<nat, nat>) {
    forall h, h' :: h in live && h' in live && h != h' ==> Pages(h, live[h]) !! Pages(h', live[h'])
  }

  ghost predicate InLive(live: map<nat, nat>, p: nat) {
    exists h :: h in live && p in Pages(h, live[h])
  }

  /** Every page is free, reserved, or in a live block. */
  ghost predicate Classified(frame: seq<int>, live: map<nat, nat>) {
    forall p: nat :: p < |frame| && !FreeCode(frame[p]) && frame[p] != RESERVED ==> InLive(live, p)
  }

  /** The invariant of the running allocator. */
  ghost predicate Consistent(frame: seq<int>, lists: seq<seq<nat>>, live: map<nat, nat>) {
    && Agrees(frame, lists, FreeSet(frame), {})
    && LiveAgrees(frame, live)
    && LiveDisjoint(live)
    && Classified(frame, live)
  }

  function ReservedSet(frame: seq<int>): (g: set<nat>)
    ensures forall p: nat :: p in g <==> p < |frame| && frame[p] == RESERVED
  {
    set p: nat | p < |frame| && frame[p] == RESERVED
  }

  class Allocator {
    const base: nat
    const end: nat
    const frame: array<int>
    var freeList: seq<seq<nat>>
    ghost var live: map<nat, nat>

    /** After buddy_init and any number of buddy_reserve calls. */
    ghost predicate Fresh()
      reads this, frame
    {
      && Geometry()
      && freeList == seq(MAX_ORDER + 1, _ => [])
      && live == map[]
      && forall p :: 0 <= p < frame.Length ==> frame[p] == FREE_PART || frame[p] == RESERVED
    }

    ghost predicate Geometry()
      reads this
    {
      && base % PAGE_SIZE == 0
      && base <= end < WORD
      && frame.Length == (end - base) / PAGE_SIZE
    }

    /** After buddy_build_free_lists and any run of allocations and frees. */
    ghost predicate Valid()
      reads this, frame
    {
      && Geometry()
      && Consistent(frame[..], freeList, live)
    }

    ghost function FreePages(): set<nat>
      reads this, frame
    {
      FreeSet(frame[..])
    }

    ghost function ReservedPages(): set<nat>
      reads this, frame
    {
      ReservedSet(frame[..])
    }

    function Addr(idx: nat): nat {
      base + idx * PAGE_SIZE
    }

    function Index(addr: nat): nat
      requires base <= addr
    {
      (addr - base) / PAGE_SIZE
    }

    constructor (base: nat, size: nat, frame: array<int>)
      requires base % PAGE_SIZE == 0 && base + size < WORD
      requires frame.Length == size / PAGE_SIZE
      modifies frame
      ensures Fresh()
      ensures this.base == base && this.end == base + size && this.frame == frame
      ensures ReservedPages() == {}
    {
      this.base := base;
      this.end := base + size;
      this.frame := frame;
      this.freeList := seq(MAX_ORDER + 1, _ => []);
      this.live := map[];
      new;
      for i := 0 to frame.Length
        invariant freeList == seq(MAX_ORDER + 1, _ => []) && live == map[]
        invariant forall p :: 0 <= p < i ==> frame[p] == FREE_PART
      {
        frame[i] := FREE_PART;
      }
    }

    /** Some byte of page p lies in [start, stop), for start < stop. */
    ghost predicate Touches(p: nat, start: nat, stop: nat) {
      Addr(p) < stop && start < Addr(p) + PAGE_SIZE
    }

    method Reserve(start: nat, stop: nat)
      requires Fresh()
      requires start < WORD && stop < WORD
      modifies frame
      ensures Fresh()
      ensures stop <= WORD - PAGE_SIZE ==>
                forall p: nat :: p < frame.Length ==>
                  (p in ReservedPages() <==> p in old(ReservedPages()) || Touches(p, start, stop))
      ensures stop > WORD - PAGE_SIZE ==> frame[..] == old(frame[..])
    {
      hide RoundDown, RoundUp;
      if stop > WORD - PAGE_SIZE {
        RoundsToZero(stop);
      }
      var lo, hi := RoundDown(start), RoundUp(stop);
      if lo < base {
        lo := base;
      }
      if hi > end {
        hi := end;
      }
      if lo >= hi {
        NothingTouched(this, start, stop);
        return;
      }
      var first, last := Index(lo), Index(hi);
      IndexBounds(base, end, lo, hi);
      forall p: nat | p < frame.Length && stop <= WORD - PAGE_SIZE
        ensures first <= p < last <==> Touches(p, start, stop)
      {
        PageRange(base, end, start, stop, p);
      }
      for i := first to last
        invariant forall p :: 0 <= p < frame.Length ==> frame[p] == if first <= p < i then RESERVED else old(frame[p])
      {
        frame[i] := RESERVED;
      }
    }

    method BlockPush(idx: nat, order: nat)
      requires |freeList| == MAX_ORDER + 1 && order <= MAX_ORDER && idx + Pow2(order) <= frame.Length
      modifies `freeList, frame
      ensures Pushed(old(frame[..]), frame[..], idx, order)
      ensures freeList == old(freeList)[order := [idx] + old(freeList)[order]]
    {
      frame[idx] := order;
      var count := Pow2(order);
      for i := 1 to count
        invariant freeList == old(freeList)
        invariant forall p :: 0 <= p < frame.Length ==>
                    frame[p] == if p == idx then order else if idx < p < idx + i then FREE_PART else old(frame[p])
      {
        frame[idx + i] := FREE_PART;
      }
      freeList := freeList[order := [idx] + freeList[order]];
    }

    /** list_del of the node in page idx; x is its place in the list. */
    method BlockPop(idx: nat, order: nat, ghost x: nat)
      requires |freeList| == MAX_ORDER + 1 && order <= MAX_ORDER
      requires x < |freeList[order]| && freeList[order][x] == idx && NoDup(freeList[order])
      modifies `freeList
      ensures freeList == old(freeList)[order := Without(old(freeList)[order], x)]
    {
      var list := freeList[order];
      var y := 0;
      while list[y] != idx
        invariant y <= x
        decreases x - y
      {
        y := y + 1;
      }
      freeList := freeList[order := Without(list, y)];
    }

    /** The largest order at which an aligned block at idx lies in the region and holds no reserved page. */
    method LargestClean(idx: nat) returns (order: nat)
      requires idx < frame.Length && frame[idx] != RESERVED
      requires forall p :: 0 <= p < frame.Length ==> FreeCode(frame[p]) || frame[p] == RESERVED
      ensures FreeBlock(FreePages(), idx, order)
      ensures forall m: nat :: order < m ==> !FreeBlock(FreePages(), idx, m)
    {
      order := MAX_ORDER;
      while order > 0
        invariant order <= MAX_ORDER
        invariant forall m: nat :: order < m ==> !FreeBlock(FreePages(), idx, m)
      {
        var block := Pow2(order);
        AlignedIsMultiple(idx, order);
        if idx % block != 0 || idx + block > frame.Length {
          assert idx + block > frame.Length ==> idx + block - 1 !in FreePages();
          order := order - 1;
          continue;
        }
        var k := 0;
        while k < block && frame[idx + k] != RESERVED
          invariant 0 <= k <= block
          invariant forall p :: idx <= p < idx + k ==> p in FreePages()
        {
          assert idx + k in FreePages();
          k := k + 1;
        }
        if k == block {
          return;
        }
        assert idx + k !in FreePages();
        order := order - 1;
      }
    }

    method Build()
      requires Fresh()
      modifies `freeList, frame
      ensures Valid()
      ensures FreePages() == old(FreePages()) && ReservedPages() == old(ReservedPages())
    {
      hide Agrees, NoStraddle, Pushed;
      ghost var g, r := FreePages(), ReservedPages();
      var idx := 0;
      BuildBegin(frame[..], freeList);
      while idx < frame.Length
        invariant BuiltTo(frame[..], freeList, g, r, idx)
      {
        if frame[idx] == RESERVED {
          SkipReserved(frame[..], freeList, g, r, idx);
          idx := idx + 1;
          continue;
        }
        var order := LargestClean(idx);
        ghost var before, lists := frame[..], freeList;
        assert idx + Pow2(order) - 1 in g;
        BlockPush(idx, order);
        BuildStep(before, frame[..], lists, g, r, idx, order);
        idx := idx + Pow2(order);
      }
      BuildEnd(frame[..], freeList, g, r);
    }

    /**
     * buddy_alloc. `block` is the page index of the block handed out and `order` the order requested;
     * ptr is the address, 0 standing for NULL.
     */
    method Alloc(size: nat) returns (ptr: nat, ghost block: Option<nat>, ghost order: nat)
      requires Valid() && size < WORD
      modifies this, frame
      ensures Valid() && ReservedPages() == old(ReservedPages())
      ensures LeastOrder(PagesNeeded(size), order)
      ensures block.None? <==> size == 0 || order > MAX_ORDER || !HasBlock(old(FreePages()), order)
      ensures base > 0 || 0 !in old(FreePages()) ==> (ptr == 0 <==> block.None?)
      ensures block.None? ==> ptr == 0 && frame[..] == old(frame[..]) && freeList == old(freeList) && live == old(live)
      ensures block.Some? ==>
                && ptr == Addr(block.value)
                && FreeBlock(old(FreePages()), block.value, order)
                && FreePages() == old(FreePages()) - Pages(block.value, order)
                && block.value !in old(live) && live == old(live)[block.value := order]
      ensures block.Some? ==> FirstFit(old(freeList), order, block.value)
    {
      hide Consistent, PagesNeeded;
      ptr, block := 0, None;
      var target := PagesToOrder(PagesNeeded(size));
      order := target;
      if size == 0 || target > MAX_ORDER {
        return;
      }
      ListedRuns(this, target);
      var current := target;
      while current <= MAX_ORDER && freeList[current] == []
        invariant target <= current <= MAX_ORDER + 1
        invariant EmptyLists(freeList, target, current)
      {
        current := current + 1;
      }
      if current > MAX_ORDER {
        return;
      }
      var idx := Take(current, target);
      ptr, block := Addr(idx), Some(idx);
    }

    /** Take the first block of a list, split it down to the order wanted and tag it. */
    method Take(top: nat, target: nat) returns (idx: nat)
      requires Valid() && target <= top <= MAX_ORDER && |freeList| == MAX_ORDER + 1 && freeList[top] != []
      modifies this, frame
      ensures Valid() && ReservedPages() == old(ReservedPages())
      ensures idx == old(freeList)[top][0] && FreeBlock(old(FreePages()), idx, target)
      ensures FreePages() == old(FreePages()) - Pages(idx, target)
      ensures idx !in old(live) && live == old(live)[idx := target]
      ensures idx in old(FreePages())
    {
      hide LiveDisjoint, Classified, LiveAgrees, Agrees, FreeBlock;
      ghost var f := FreePages();
      idx := freeList[top][0];
      PopHeld(frame[..], freeList, f, top);
      TakenFree(f, idx, top, target);
      BlockPop(idx, top, 0);
      SplitDown(idx, top, target, f);
      ghost var split := frame[..];
      TagBlock(idx, target);
      TakenAgrees(old(frame[..]), split, frame[..], freeList, live, f, idx, top, target);
      live := live[idx := target];
    }

    method SplitDown(idx: nat, top: nat, target: nat, ghost f: set<nat>)
      requires target <= top && Held(frame[..], freeList, f, idx, top)
      modifies `freeList, frame
      ensures Held(frame[..], freeList, f, idx, target)
      ensures forall p: nat :: p < frame.Length && !(idx <= p < idx + Pow2(top)) ==> frame[p] == old(frame[p])
    {
      var current := top;
      while current > target
        invariant target <= current <= top
        invariant Held(frame[..], freeList, f, idx, current)
        invariant forall p: nat :: p < frame.Length && !(idx <= p < idx + Pow2(top)) ==> frame[p] == old(frame[p])
      {
        current := current - 1;
        Pow2Monotone(current + 1, top);
        ghost var before, lists := frame[..], freeList;
        BlockPush(idx + Pow2(current), current);
        SplitStep(before, frame[..], lists, f, idx, current);
      }
    }

    method TagBlock(idx: nat, order: nat)
      requires order <= MAX_ORDER && idx + Pow2(order) <= frame.Length
      modifies frame
      ensures Tagged(old(frame[..]), frame[..], idx, order)
    {
      for i := 0 to Pow2(order)
        invariant forall p: nat :: p < frame.Length ==>
                    frame[p] == if idx <= p < idx + i then AllocTag(idx, order) else old(frame[p])
      {
        frame[idx + i] := AllocTag(idx, order);
      }
    }

    /** buddy_free of NULL, of an address outside the region, of a reserved page, or of a live block. */
    method Free(ptr: nat)
      requires Valid()
      requires ptr != 0 && base <= ptr < end ==>
                 Index(ptr) < frame.Length && (frame[Index(ptr)] == RESERVED || Index(ptr) in live)
      modifies this, frame
      ensures Valid() && ReservedPages() == old(ReservedPages())
      ensures if ptr != 0 && base <= ptr < end && Index(ptr) in old(live)
              then FreePages() == old(FreePages()) + Pages(Index(ptr), old(live)[Index(ptr)]) &&
                live == old(live) - {Index(ptr)}
              else frame[..] == old(frame[..]) && freeList == old(freeList) && live == old(live)
    {
      if ptr == 0 {
        return;
      }
      if ptr < base || ptr >= end {
        return;
      }
      var idx := Index(ptr);
      if frame[idx] == RESERVED {
        ReservedNotLive(frame[..], live, idx);
        return;
      }
      LiveHeadTag(frame[..], live, idx);
      var order := TagOrder(frame[idx]);
      ghost var f := FreePages() + Pages(idx, order);
      ClearBlock(idx, order);
      LivePagesNotFree(old(frame[..]), live);
      assert f - Pages(idx, order) == old(FreePages());
      HoleIsFree(old(frame[..]), frame[..], old(FreePages()), {}, Pages(idx, order));
      Coalesce(idx, order, f);
      FreedAgrees(old(frame[..]), frame[..], live, f, idx);
      live := live - {idx};
    }

    method ClearBlock(idx: nat, order: nat)
      requires idx + Pow2(order) <= frame.Length
      modifies frame
      ensures forall p: nat :: p < frame.Length ==>
              frame[p] == if p in Pages(idx, order) then FREE_PART else old(frame[p])
    {
      for j := 0 to Pow2(order)
        invariant forall p: nat :: p < frame.Length ==>
                    frame[p] == if idx <= p < idx + j then FREE_PART else old(frame[p])
      {
        frame[idx + j] := FREE_PART;
      }
    }

    /** Merge the held block with its buddies as far as they are free, then list the result. */
    method Coalesce(idx: nat, order: nat, ghost f: set<nat>)
      requires Held(frame[..], freeList, f, idx, order)
      modifies `freeList, frame
      ensures Agrees(frame[..], freeList, f, {})
      ensures forall p: nat :: p < frame.Length && p !in f ==> frame[p] == old(frame[p])
    {
      var cur: nat, k: nat := idx, order;
      while k < MAX_ORDER
        invariant Held(frame[..], freeList, f, cur, k)
        invariant frame[..] == old(frame[..])
      {
        var buddy := Xor(cur, Pow2(k));
        XorIsBuddy(cur, k);
        if buddy >= frame.Length || frame[buddy] == RESERVED || frame[buddy] != k {
          break;
        }
        ghost var lists := freeList;
        ghost var x := MergeReady(frame[..], freeList, f, cur, k);
        BlockPop(buddy, k, x);
        MergeStep(frame[..], lists, f, cur, k, x);
        if buddy < cur {
          cur := buddy;
        }
        k := k + 1;
      }
      BuddyNotFree(frame[..], freeList, f, cur, k);
      ListHeld(cur, k, f);
    }

    /** Put a held block whose buddy is not free on its list. */
    method ListHeld(cur: nat, k: nat, ghost f: set<nat>)
      requires Held(frame[..], freeList, f, cur, k)
      requires k < MAX_ORDER ==> !Run(f - Pages(cur, k), BuddyOf(cur, k), k)
      modifies `freeList, frame
      ensures Agrees(frame[..], freeList, f, {})
      ensures forall p: nat :: p < frame.Length && p !in f ==> frame[p] == old(frame[p])
    {
      hide FrameAgrees, Maximal;
      ghost var before, lists := frame[..], freeList;
      BlockPush(cur, k);
      PushAgrees(before, frame[..], lists, f - Pages(cur, k), Pages(cur, k), cur, k);
      assert f - Pages(cur, k) + Pages(cur, k) == f;
      assert Pages(cur, k) - Pages(cur, k) == {};
    }
  }

  /** A range that is empty once rounded and clamped touches no page. */
  lemma NothingTouched(a: Allocator, start: nat, stop: nat)
    requires a.Geometry()
    requires var lo := if RoundDown(start) < a.base then a.base else RoundDown(start);
             var hi := if RoundUp(stop) > a.end then a.end else RoundUp(stop);
             lo >= hi
    ensures stop <= WORD - PAGE_SIZE ==> forall p: nat :: p < a.frame.Length ==> !a.Touches(p, start, stop)
  {
    var b := a.base / PAGE_SIZE;
    assert a.base == b * PAGE_SIZE;
  }

  lemma ReservedNotLive(frame: seq<int>, live: map<nat, nat>, idx: nat)
    requires LiveAgrees(frame, live) && idx < |frame| && frame[idx] == RESERVED
    ensures idx !in live
  {
    if idx in live {
      assert idx in Pages(idx, live[idx]);
      TagSound(idx, live[idx]);
    }
  }

  lemma LiveHeadTag(frame: seq<int>, live: map<nat, nat>, idx: nat)
    requires LiveAgrees(frame, live) && idx in live
    ensures idx < |frame| && TagOrder(frame[idx]) == live[idx]
  {
    TagSound(idx, live[idx]);
    assert idx in Pages(idx, live[idx]);
  }

  /** A buddy whose entry is the held block's order heads a listed block, at place x of its list. */
  lemma MergeReady(frame: seq<int>, lists: seq<seq<nat>>, f: set<nat>, cur: nat, k: nat) returns (x: nat)
    requires Held(frame, lists, f, cur, k) && k < MAX_ORDER
    requires 0 <= BuddyOf(cur, k) < |frame| && frame[BuddyOf(cur, k)] == k
    ensures x < |lists[k]| && lists[k][x] == BuddyOf(cur, k)
  {
    ParentInside(cur, k);
    var b := BuddyOf(cur, k);
    assert b in Pages(b, k) && b !in Pages(cur, k);
    assert Maximal(f - Pages(cur, k), b, k);
    assert b in lists[k];
    x :| x < |lists[k]| && lists[k][x] == b;
  }

  lemma MergeStep(frame: seq<int>, lists: seq<seq<nat>>, f: set<nat>, cur: nat, k: nat, x: nat)
    requires Held(frame, lists, f, cur, k) && k < MAX_ORDER
    requires x < |lists[k]| && lists[k][x] == BuddyOf(cur, k)
    ensures ParentOf(cur, k) >= 0 && Held(frame, lists[k := Without(lists[k], x)], f, ParentOf(cur, k), k + 1)
    ensures ParentOf(cur, k) == if BuddyOf(cur, k) < cur then BuddyOf(cur, k) else cur
  {
    Family(cur, k);
    ParentInside(cur, k);
    var b := BuddyOf(cur, k);
    var g := f - Pages(cur, k);
    PopAgrees(frame, lists, g, Pages(cur, k), k, x);
    assert g - Pages(b, k) == f - Pages(ParentOf(cur, k), k + 1);
    assert Pages(b, k) <= f;
    assert b + Pow2(k) - 1 in Pages(b, k);
  }

  /** When merging stops, the buddy is not entirely free. */
  lemma BuddyNotFree(frame: seq<int>, lists: seq<seq<nat>>, f: set<nat>, cur: nat, k: nat)
    requires Held(frame, lists, f, cur, k)
    requires k < MAX_ORDER ==> BuddyOf(cur, k) >= |frame| || (BuddyOf(cur, k) >= 0 && frame[BuddyOf(cur, k)] != k)
    ensures k < MAX_ORDER ==> !Run(f - Pages(cur, k), BuddyOf(cur, k), k)
  {
    if k < MAX_ORDER {
      Family(cur, k);
      ParentInside(cur, k);
      var b, g := BuddyOf(cur, k), f - Pages(cur, k);
      ParentRun(g, b, k);
      assert cur in Pages(cur, k) && cur !in g;
      assert !Run(g, cur, k);
      assert b in Pages(b, k) && b !in Pages(cur, k);
      assert Run(g, b, k) ==> b in g;
      assert Run(g, b, k) ==> Maximal(g, b, k);
    }
  }

  lemma FreedAgrees(frame: seq<int>, after: seq<int>, live: map<nat, nat>, f: set<nat>, idx: nat)
    requires LiveAgrees(frame, live) && LiveDisjoint(live) && Classified(frame, live) && idx in live
    requires |after| == |frame| && f == FreeSet(frame) + Pages(idx, live[idx]) && FrameAgrees(after, f, {})
    requires forall p: nat :: p < |frame| && p !in f ==> after[p] == frame[p]
    ensures FreeSet(after) == f && ReservedSet(after) == ReservedSet(frame)
    ensures LiveAgrees(after, live - {idx}) && LiveDisjoint(live - {idx}) && Classified(after, live - {idx})
  {
    LivePagesNotFree(frame, live);
    var live' := live - {idx};
    forall h, p: nat | h in live' && p in Pages(h, live'[h]) ensures after[p] == AllocTag(h, live'[h]) {
      assert p !in Pages(idx, live[idx]);
      assert p !in FreeSet(frame);
    }
    TagSound(idx, live[idx]);
    forall p: nat | p < |after| ensures after[p] == RESERVED <==> frame[p] == RESERVED {
      assert p in f ==> FreeCode(after[p]) && frame[p] != RESERVED;
    }
    forall p: nat | p < |after| && !FreeCode(after[p]) && after[p] != RESERVED ensures InLive(live', p) {
      assert p !in f;
      assert InLive(live, p);
      var h :| h in live && p in Pages(h, live[h]);
      assert h in live' && p in Pages(h, live'[h]);
    }
  }

  ghost predicate Tagged(frame: seq<int>, frame': seq<int>, idx: nat, order: nat)
    requires order <= MAX_ORDER
  {
    && |frame'| == |frame|
    && forall p: nat :: p < |frame| ==> frame'[p] == if p in Pages(idx, order) then AllocTag(idx, order) else frame[p]
  }

  /** No block is listed at the orders from lo up to but not including hi. */
  ghost predicate EmptyLists(lists: seq<seq<nat>>, lo: nat, hi: nat) {
    hi <= |lists| && forall k: nat :: lo <= k < hi ==> lists[k] == []
  }

  lemma ListedRuns(a: Allocator, order: nat)
    requires a.Valid() && order <= MAX_ORDER
    ensures |a.freeList| == MAX_ORDER + 1
    ensures EmptyLists(a.freeList, order, MAX_ORDER + 1) <==> !HasBlock(a.FreePages(), order)
  {
    ListedIffRun(a.freeList, a.FreePages(), order);
  }

  /** The first block of a list, once unlinked, is held. */
  lemma PopHeld(frame: seq<int>, lists: seq<seq<nat>>, f: set<nat>, k: nat)
    requires Agrees(frame, lists, f, {}) && k <= MAX_ORDER && lists[k] != []
    ensures NoDup(lists[k]) && FreeBlock(f, lists[k][0], k)
    ensures Held(frame, lists[k := Without(lists[k], 0)], f, lists[k][0], k)
  {
    var idx := lists[k][0];
    PopAgrees(frame, lists, f, {}, k, 0);
    assert {} + Pages(idx, k) == Pages(idx, k);
    assert idx + Pow2(k) - 1 in f;
  }

  /** The lower part of a free block is a free block. */
  lemma TakenFree(f: set<nat>, idx: nat, top: nat, target: nat)
    requires FreeBlock(f, idx, top) && target <= top
    ensures FreeBlock(f, idx, target) && idx in f && Pages(idx, top) <= f
  {
    AlignedDown(idx, target, top);
    Pow2Monotone(target, top);
  }

  /** Tagging a held block turns it into a live one. */
  lemma TakenAgrees(frame: seq<int>, before: seq<int>, after: seq<int>, lists: seq<seq<nat>>, live: map<nat, nat>,
                    f: set<nat>, idx: nat, top: nat, k: nat)
    requires f == FreeSet(frame) && LiveAgrees(frame, live) && LiveDisjoint(live) && Classified(frame, live)
    requires Held(before, lists, f, idx, k) && k <= top && Pages(idx, top) <= f
    requires |before| == |frame|
    requires forall p: nat :: p < |frame| && !(idx <= p < idx + Pow2(top)) ==> before[p] == frame[p]
    requires Tagged(before, after, idx, k)
    ensures FreeSet(after) == f - Pages(idx, k) && ReservedSet(after) == ReservedSet(frame)
    ensures Agrees(after, lists, f - Pages(idx, k), {})
    ensures idx !in live
    ensures LiveAgrees(after, live[idx := k]) && LiveDisjoint(live[idx := k]) && Classified(after, live[idx := k])
  {
    TagSound(idx, k);
    Pow2Monotone(k, top);
    var g := f - Pages(idx, k);
    HoleIsFree(before, after, g, Pages(idx, k), Pages(idx, k));
    CloseHole(after, g, Pages(idx, k));
    LivePagesNotFree(frame, live);
    TakenCodes(frame, before, after, f, idx, top, k);
    assert FreeSet(after) == g;
    assert ReservedSet(after) == ReservedSet(frame);
    assert idx in Pages(idx, k);
    TakenLive(frame, after, live, f, idx, k);
  }

  /** How each page's entry changed: tagged, still free, or untouched. */
  lemma TakenCodes(frame: seq<int>, before: seq<int>, after: seq<int>, f: set<nat>, idx: nat, top: nat, k: nat)
    requires f == FreeSet(frame) && k <= top && k <= MAX_ORDER && Pages(idx, top) <= f
    requires |before| == |frame| && Tagged(before, after, idx, k)
    requires FrameAgrees(before, f - Pages(idx, k), Pages(idx, k))
    requires forall p: nat :: p < |frame| && !(idx <= p < idx + Pow2(top)) ==> before[p] == frame[p]
    ensures forall p: nat :: p < |frame| && p !in Pages(idx, k) ==>
            (FreeCode(after[p]) && FreeCode(frame[p])) || after[p] == frame[p]
    ensures forall p: nat :: p in Pages(idx, k) ==> p < |frame| && FreeCode(frame[p]) && after[p] == AllocTag(idx, k)
  {
    Pow2Monotone(k, top);
    assert Pages(idx, k) <= Pages(idx, top);
    forall p: nat | p < |frame| && p !in Pages(idx, k)
      ensures (FreeCode(after[p]) && FreeCode(frame[p])) || after[p] == frame[p]
    {
      if idx <= p < idx + Pow2(top) {
        assert p in Pages(idx, top);
        assert p in f - Pages(idx, k);
      }
    }
  }

  lemma LivePagesNotFree(frame: seq<int>, live: map<nat, nat>)
    requires LiveAgrees(frame, live)
    ensures forall h :: h in live ==> Pages(h, live[h]) !! FreeSet(frame)
  {
    forall h | h in live ensures Pages(h, live[h]) !! FreeSet(frame) {
      TagSound(h, live[h]);
    }
  }

  lemma TakenLive(frame: seq<int>, after: seq<int>, live: map<nat, nat>, f: set<nat>, idx: nat, k: nat)
    requires f == FreeSet(frame) && LiveAgrees(frame, live) && LiveDisjoint(live) && Classified(frame, live)
    requires k <= MAX_ORDER && Aligned(idx, k) && |after| == |frame| && Pages(idx, k) <= f
    requires forall p: nat :: p < |frame| && p !in Pages(idx, k) ==>
             (FreeCode(after[p]) && FreeCode(frame[p])) || after[p] == frame[p]
    requires forall p: nat :: p in Pages(idx, k) ==> p < |frame| && FreeCode(frame[p]) && after[p] == AllocTag(idx, k)
    ensures idx !in live
    ensures LiveAgrees(after, live[idx := k]) && LiveDisjoint(live[idx := k]) && Classified(after, live[idx := k])
  {
    hide Classified;
    LivePagesNotFree(frame, live);
    assert idx in Pages(idx, k);
    assert forall h :: h in live ==> h in Pages(h, live[h]);
    assert idx + Pow2(k) - 1 in Pages(idx, k);
    TakenClassified(frame, after, live, idx, k);
  }

  lemma TakenClassified(frame: seq<int>, after: seq<int>, live: map<nat, nat>, idx: nat, k: nat)
    requires Classified(frame, live) && |after| == |frame| && idx !in live
    requires forall p: nat :: p < |frame| && p !in Pages(idx, k) ==>
             (FreeCode(after[p]) && FreeCode(frame[p])) || after[p] == frame[p]
    ensures Classified(after, live[idx := k])
  {
    var live' := live[idx := k];
    forall p: nat | p < |after| && !FreeCode(after[p]) && after[p] != RESERVED ensures InLive(live', p) {
      if p in Pages(idx, k) {
        assert idx in live' && p in Pages(idx, live'[idx]);
      } else {
        assert InLive(live, p);
        var h :| h in live && p in Pages(h, live[h]);
        assert h in live' && p in Pages(h, live'[h]);
      }
    }
  }

  /** idx heads the lowest non-empty list at or above the order asked for. */
  ghost predicate FirstFit(lists: seq<seq<nat>>, order: nat, idx: nat) {
    exists k: nat :: order <= k < |lists| && lists[k] != [] && lists[k][0] == idx &&
      forall m: nat :: order <= m < k ==> lists[m] == []
  }

  /** The block (idx, k) has been taken out of f; everything else agrees. */
  ghost predicate Held(frame: seq<int>, lists: seq<seq<nat>>, f: set<nat>, idx: nat, k: nat) {
    && k <= MAX_ORDER && Aligned(idx, k) && idx + Pow2(k) <= |frame|
    && Pages(idx, k) <= f
    && Agrees(frame, lists, f - Pages(idx, k), Pages(idx, k))
  }

  lemma SplitHeld(idx: nat, k: nat)
    requires Aligned(idx, k + 1)
    ensures Aligned(idx, k) && Aligned(idx + Pow2(k), k)
    ensures BuddyOf(idx + Pow2(k), k) == idx
    ensures Pages(idx, k + 1) == Pages(idx, k) + Pages(idx + Pow2(k), k) && Pages(idx, k) !! Pages(idx + Pow2(k), k)
  {
    AlignedDown(idx, k, k + 1);
    Family(idx, k);
  }

  /** Releasing the upper half of a held block leaves the lower half held. */
  lemma SplitStep(frame: seq<int>, frame': seq<int>, lists: seq<seq<nat>>, f: set<nat>, idx: nat, k: nat)
    requires Held(frame, lists, f, idx, k + 1) && Pushed(frame, frame', idx + Pow2(k), k)
    ensures Held(frame', lists[k := [idx + Pow2(k)] + lists[k]], f, idx, k)
  {
    hide Agrees, Aligned;
    SplitHeld(idx, k);
    var g, upper := f - Pages(idx, k + 1), Pages(idx + Pow2(k), k);
    assert idx !in g;
    assert g + upper == f - Pages(idx, k);
    assert Pages(idx, k + 1) - upper == Pages(idx, k);
    PushAgrees(frame, frame', lists, g, Pages(idx, k + 1), idx + Pow2(k), k);
  }

  /** Pages below idx are entered in the lists and the frame array; the rest still hold their initial marks. */
  ghost predicate BuiltTo(frame: seq<int>, lists: seq<seq<nat>>, g: set<nat>, r: set<nat>, idx: nat) {
    && idx <= |frame| && |lists| == MAX_ORDER + 1
    && FreeSet(frame) == g && ReservedSet(frame) == r
    && (forall p :: 0 <= p < |frame| ==> FreeCode(frame[p]) || frame[p] == RESERVED)
    && Agrees(frame, lists, g * Span(0, idx), Span(idx, |frame|))
    && NoStraddle(g, idx)
  }

  lemma BuildBegin(frame: seq<int>, lists: seq<seq<nat>>)
    requires lists == seq(MAX_ORDER + 1, _ => [])
    requires forall p :: 0 <= p < |frame| ==> frame[p] == FREE_PART || frame[p] == RESERVED
    ensures BuiltTo(frame, lists, FreeSet(frame), ReservedSet(frame), 0)
  {
    EmptyAgrees(frame, lists);
  }

  lemma BuildEnd(frame: seq<int>, lists: seq<seq<nat>>, g: set<nat>, r: set<nat>)
    requires BuiltTo(frame, lists, g, r, |frame|)
    ensures Consistent(frame, lists, map[]) && FreeSet(frame) == g && ReservedSet(frame) == r
  {
    assert g * Span(0, |frame|) == g;
    assert Span(|frame|, |frame|) == {};
  }

  lemma BuildStep(frame: seq<int>, frame': seq<int>, lists: seq<seq<nat>>, g: set<nat>, r: set<nat>, idx: nat, k: nat)
    requires BuiltTo(frame, lists, g, r, idx) && FreeBlock(g, idx, k)
    requires forall m: nat :: k < m ==> !FreeBlock(g, idx, m)
    requires Pushed(frame, frame', idx, k)
    ensures BuiltTo(frame', lists[k := [idx] + lists[k]], g, r, idx + Pow2(k))
  {
    GreedyStep(g, idx, k);
    PushAgrees(frame, frame', lists, g * Span(0, idx), Span(idx, |frame|), idx, k);
    SpanSplit(g, idx, k, |frame|);
    PushKeepsCodes(frame, frame', idx, k);
  }

  lemma SpanSplit(g: set<nat>, idx: nat, k: nat, n: nat)
    requires Run(g, idx, k)
    ensures g * Span(0, idx) + Pages(idx, k) == g * Span(0, idx + Pow2(k))
    ensures Span(idx, n) - Pages(idx, k) == Span(idx + Pow2(k), n)
  {
  }

  lemma PushKeepsCodes(frame: seq<int>, frame': seq<int>, idx: nat, k: nat)
    requires k <= MAX_ORDER && Pushed(frame, frame', idx, k) && Run(FreeSet(frame), idx, k)
    ensures FreeSet(frame') == FreeSet(frame) && ReservedSet(frame') == ReservedSet(frame)
    ensures (forall p :: 0 <= p < |frame| ==> FreeCode(frame[p]) || frame[p] == RESERVED) ==>
              forall p :: 0 <= p < |frame'| ==> FreeCode(frame'[p]) || frame'[p] == RESERVED
  {
    forall p: nat | p < |frame|
      ensures FreeCode(frame'[p]) <==> FreeCode(frame[p])
      ensures frame'[p] == RESERVED <==> frame[p] == RESERVED
    {
      if idx <= p < idx + Pow2(k) {
        assert p in FreeSet(frame);
      }
    }
  }

  /** No free block reaches across idx. */
  ghost predicate NoStraddle(g: set<nat>, idx: nat) {
    forall j: nat, m: nat :: FreeBlock(g, j, m) && j < idx ==> j + Pow2(m) <= idx
  }

  lemma EmptyAgrees(frame: seq<int>, lists: seq<seq<nat>>)
    requires lists == seq(MAX_ORDER + 1, _ => [])
    ensures Agrees(frame, lists, {}, Span(0, |frame|)) &&
            Agrees(frame, lists, FreeSet(frame) * Span(0, 0), Span(0, |frame|))
  {
    assert FreeSet(frame) * Span(0, 0) == {};
    forall k: nat, i: nat ensures !Maximal({}, i, k) {
      NotHead({}, i, k);
    }
  }

  lemma SkipReserved(frame: seq<int>, lists: seq<seq<nat>>, g: set<nat>, r: set<nat>, idx: nat)
    requires BuiltTo(frame, lists, g, r, idx) && idx < |frame| && frame[idx] == RESERVED
    ensures BuiltTo(frame, lists, g, r, idx + 1)
  {
    assert g * Span(0, idx + 1) == g * Span(0, idx);
    forall k: nat ensures !Maximal(g * Span(0, idx), idx, k) && !FreeBlock(g, idx, k) {
      NotHead(g * Span(0, idx), idx, k);
      assert idx < idx + Pow2(k);
    }
  }

  /** The largest clean block at idx meets the condition for entering it and leaves no block across its end. */
  lemma GreedyStep(g: set<nat>, idx: nat, k: nat)
    requires NoStraddle(g, idx) && FreeBlock(g, idx, k)
    requires forall m: nat :: k < m ==> !FreeBlock(g, idx, m)
    ensures k < MAX_ORDER ==> !Run(g * Span(0, idx), BuddyOf(idx, k), k)
    ensures NoStraddle(g, idx + Pow2(k))
  {
    Family(idx, k);
    ParentRun(g, idx, k);
    assert k < MAX_ORDER ==> !FreeBlock(g, ParentOf(idx, k), k + 1);
    var c := BuddyOf(idx, k);
    RunSubset(g * Span(0, idx), g, c, k);
    assert Run(g * Span(0, idx), c, k) ==> c in g * Span(0, idx);
    forall j: nat, m: nat | FreeBlock(g, j, m) && j < idx + Pow2(k) ensures j + Pow2(m) <= idx + Pow2(k) {
      if j >= idx {
        Nested(j, m, idx, k);
      }
    }
  }

  ghost predicate InListed(lists: seq<seq<nat>>, p: nat) {
    exists k: nat, i: nat :: k < |lists| && i in lists[k] && p in Pages(i, k)
  }

  /** Each page is reserved, in exactly one listed block, or in exactly one live block, and its entry says which. */
  lemma PagePartition(frame: seq<int>, lists: seq<seq<nat>>, live: map<nat, nat>, p: nat)
    requires Consistent(frame, lists, live) && p < |frame|
    ensures frame[p] == RESERVED <==> !InListed(lists, p) && !InLive(live, p)
    ensures FreeCode(frame[p]) <==> InListed(lists, p)
    ensures InLive(live, p) ==> !InListed(lists, p)
    ensures forall k: nat, i, k': nat, i' ::
              (k < |lists| && k' < |lists| && i in lists[k] && i' in lists[k'] && p in Pages(i, k) &&
               p in Pages(i', k')) ==>
              i == i' && k == k'
    ensures forall h, h' :: h in live && h' in live && p in Pages(h, live[h]) && p in Pages(h', live[h']) ==> h == h'
  {
    var f := FreeSet(frame);
    LivePagesNotFree(frame, live);
    if p in f {
      MaximalPartition(f, p);
      var j: nat, m: nat :| Maximal(f, j, m) && p in Pages(j, m);
      assert j in lists[m] && p in Pages(j, m);
    }
    forall k: nat, i: nat | k < |lists| && i in lists[k] && p in Pages(i, k) ensures p in f {
      assert Run(f, i, k);
    }
    forall k: nat, i: nat, k': nat, i': nat | k < |lists| && k' < |lists| && i in lists[k] && i' in lists[k'] &&
      p in Pages(i, k) && p in Pages(i', k')
      ensures i == i' && k == k'
    {
      MaximalUnique(f, i, k, i', k');
    }
    if h :| h in live && p in Pages(h, live[h]) {
      TagSound(h, live[h]);
    }
  }

  /**
   * Exact restoration. The free blocks of every order are determined by the reserved pages and the
   * live blocks: a run that ends with the live blocks it began with ends with the free blocks it
   * began with, and freeing everything gives back the blocks of the initial build.
   */
  lemma Restoration(frame: seq<int>, lists: seq<seq<nat>>, frame': seq<int>, lists': seq<seq<nat>>, live: map<nat, nat>)
    requires Consistent(frame, lists, live) && Consistent(frame', lists', live)
    requires |frame| == |frame'| && ReservedSet(frame) == ReservedSet(frame')
    ensures FreeSet(frame) == FreeSet(frame')
    ensures forall k: nat :: k <= MAX_ORDER ==> multiset(lists[k]) == multiset(lists'[k])
  {
    forall p: nat | p < |frame| ensures FreeCode(frame[p]) <==> FreeCode(frame'[p]) {
      PagePartition(frame, lists, live, p);
      PagePartition(frame', lists', live, p);
      assert p in ReservedSet(frame) <==> p in ReservedSet(frame');
    }
    assert FreeSet(frame) == FreeSet(frame');
    CanonicalForm(frame, lists, frame', lists', FreeSet(frame));
  }

  /** The order requested covers the size, and the next smaller one would not, unless the rounding wraps. */
  lemma RequestCovered(size: nat, order: nat)
    requires 0 < size < WORD && LeastOrder(PagesNeeded(size), order)
    ensures size <= Pow2(order) * PAGE_SIZE <==> size <= WORD - PAGE_SIZE
    ensures size <= WORD - PAGE_SIZE ==> forall k: nat :: size <= Pow2(k) * PAGE_SIZE ==> order <= k
    ensures size > WORD - PAGE_SIZE ==> order == 0
  {
    if size <= WORD - PAGE_SIZE {
      assert (size + PAGE_SIZE - 1) % WORD == size + PAGE_SIZE - 1;
    } else {
      assert (size + PAGE_SIZE - 1) % WORD == size + PAGE_SIZE - 1 - WORD;
      assert PagesNeeded(size) == 0;
      assert order > 0 ==> Pow2(0) < 0;
    }
  }

  lemma LiveAddress(a: Allocator, idx: nat)
    requires a.Valid() && idx in a.live && (a.base > 0 || 0 in a.ReservedPages())
    ensures 0 < a.Addr(idx) && a.base <= a.Addr(idx) < a.end && idx < a.frame.Length
  {
    assert idx + Pow2(a.live[idx]) <= a.frame.Length;
    AddrInside(a.base, a.end, idx);
    if a.base == 0 {
      ReservedNotLive(a.frame[..], a.live, 0);
    }
  }

  lemma AddrInside(base: nat, end: nat, idx: nat)
    requires base <= end && idx < (end - base) / PAGE_SIZE
    ensures base + idx * PAGE_SIZE < end
  {
  }
}
