/** The boot sequence from the startup allocator to the running page-frame allocator, and runs of the latter. */
module Boot {
  import opened Arith
  import opened Blocks
  import opened Frames
  import opened Sequences
  import B = Buddy
  import S = Startup

  datatype Request = Alloc(size: nat) | Free(which: nat)

  /** Page p of the region at base shares a byte with [start, stop). */
  ghost predicate Overlaps(base: nat, p: nat, start: nat, stop: nat) {
    base + p * PAGE_SIZE < stop && start < base + p * PAGE_SIZE + PAGE_SIZE
  }

  /** Every page of the allocator that shares a byte with the range is reserved. */
  ghost predicate Protected(a: B.Allocator, start: nat, stop: nat)
    reads a, a.frame
  {
    forall p: nat :: p < a.frame.Length && Overlaps(a.base, p, start, stop) ==> p in a.ReservedPages()
  }

  /** The registered ranges, unless rounding their end wraps, and both metadata arrays. */
  ghost predicate AllProtected(a: B.Allocator, reserves: seq<S.Range>, frameAddr: nat, poolAddr: nat)
    reads a, a.frame
  {
    && (forall r :: r in reserves && r.end <= WORD - PAGE_SIZE ==> Protected(a, r.start, r.end))
    && Protected(a, frameAddr, frameAddr + a.frame.Length * 4)
    && Protected(a, poolAddr, poolAddr + a.frame.Length)
  }

  /** Page p shares a byte with one of the records. */
  ghost predicate Touched(rs: seq<S.Range>, base: nat, p: nat) {
    exists k :: 0 <= k < |rs| && Overlaps(base, p, rs[k].start, rs[k].end)
  }

  lemma TouchedNext(rs: seq<S.Range>, n: nat, base: nat, p: nat)
    requires n < |rs|
    ensures Touched(rs[..n + 1], base, p) <==> Touched(rs[..n], base, p) || Overlaps(base, p, rs[n].start, rs[n].end)
  {
    forall k | 0 <= k < |rs| && Overlaps(base, p, rs[k].start, rs[k].end)
      ensures k < n ==> Touched(rs[..n], base, p)
      ensures k <= n ==> Touched(rs[..n + 1], base, p)
    {
      assert k < n ==> rs[..n][k] == rs[k];
      assert k <= n ==> rs[..n + 1][k] == rs[k];
    }
  }

  /** buddy_startup_replay_reserves. */
  method Replay(s: S.Allocator, a: B.Allocator)
    requires s.Valid() && a.Fresh()
    modifies a.frame
    ensures a.Fresh()
    ensures forall p: nat :: p < a.frame.Length ==>
              (p in a.ReservedPages() <==> p in old(a.ReservedPages()) || Touched(s.Records(), a.base, p))
  {
    for i := 0 to s.count
      invariant a.Fresh() && s.Valid()
      invariant s.Records() == old(s.Records())
      invariant forall p: nat :: p < a.frame.Length ==>
                  (p in a.ReservedPages() <==> p in old(a.ReservedPages()) || Touched(s.Records()[..i], a.base, p))
    {
      forall p: nat {
        TouchedNext(s.Records(), i, a.base, p);
      }
      a.Reserve(s.reserves[i].start, s.reserves[i].end);
    }
    assert s.Records()[..s.count] == s.Records();
  }

  function Clamped(r: S.Range, memBase: nat, memEnd: nat): S.Range {
    var lo := if B.RoundDown(r.start) < memBase then memBase else B.RoundDown(r.start);
    var hi := if B.RoundUp(r.end) > memEnd then memEnd else B.RoundUp(r.end);
    S.Range(lo, hi)
  }

  /** Rounding to pages and clamping to the region lose no page of the region and add none. */
  lemma ClampKeepsPages(r: S.Range, memBase: nat, memEnd: nat, p: nat)
    requires memBase % PAGE_SIZE == 0 && r.end <= WORD - PAGE_SIZE && p < (memEnd - memBase) / PAGE_SIZE &&
             memBase <= memEnd
    ensures var c := Clamped(r, memBase, memEnd);
            Overlaps(memBase, p, r.start, r.end) <==> c.start < c.end && Overlaps(memBase, p, c.start, c.end)
  {
    var b := memBase / PAGE_SIZE;
    assert memBase == b * PAGE_SIZE;
    assert memBase + p * PAGE_SIZE == (b + p) * PAGE_SIZE;
  }

  /** The clamped ranges that are not empty, in order. */
  function Kept(reserves: seq<S.Range>, memBase: nat, memEnd: nat): seq<S.Range> {
    if reserves == [] then []
    else
      var n := |reserves| - 1;
      var c := Clamped(reserves[n], memBase, memEnd);
      Kept(reserves[..n], memBase, memEnd) + if c.start < c.end then [c] else []
  }

  lemma {:induction false} KeptMembers(reserves: seq<S.Range>, memBase: nat, memEnd: nat, r: S.Range)
    requires r in reserves && Clamped(r, memBase, memEnd).start < Clamped(r, memBase, memEnd).end
    ensures Clamped(r, memBase, memEnd) in Kept(reserves, memBase, memEnd)
  {
    var n := |reserves| - 1;
    if r != reserves[n] {
      assert r in reserves[..n];
      KeptMembers(reserves[..n], memBase, memEnd, r);
    }
  }

  /** The first records of the table, as many as it holds. */
  function Fitting(rs: seq<S.Range>): seq<S.Range> {
    if |rs| <= S.MAX_RESERVES then rs else rs[..S.MAX_RESERVES]
  }

  /** What is on record once all ranges are registered. */
  function Registered(reserves: seq<S.Range>, memBase: nat, memEnd: nat): seq<S.Range> {
    Fitting(Kept(reserves, memBase, memEnd))
  }

  /** Registers range after range; what the full table has no slot for is dropped. */
  method RegisterAll(s: S.Allocator, reserves: seq<S.Range>)
    requires s.Valid() && s.Records() == []
    requires forall r :: r in reserves ==> r.start < WORD && r.end < WORD
    modifies s, s.reserves
    ensures s.Valid() && s.Records() == Registered(reserves, s.memBase, s.memEnd)
  {
    for i := 0 to |reserves|
      invariant s.Valid() && s.Records() == Fitting(Kept(reserves[..i], s.memBase, s.memEnd))
    {
      assert reserves[i] in reserves && reserves[..i + 1][..i] == reserves[..i];
      s.Reserve(reserves[i].start, reserves[i].end);
    }
    assert reserves[..|reserves|] == reserves;
  }

  /** The array of n bytes at a meets none of the records. */
  ghost predicate Clear(rs: seq<S.Range>, a: nat, n: nat) {
    forall r :: r in rs ==> S.Apart(a, n, r)
  }

  /** The records are the ones kept and those of the arrays that were placed. */
  ghost predicate Placed(kept: seq<S.Range>, records: seq<S.Range>, frameAddr: nat, frameSize: nat, poolAddr: nat,
                         poolSize: nat) {
    forall x :: x in records <==>
      || x in kept
      || (frameAddr != 0 && x == S.Range(frameAddr, frameAddr + frameSize))
      || (poolAddr != 0 && x == S.Range(poolAddr, poolAddr + poolSize))
  }

  /** The arrays that were placed meet none of the records kept, and not each other. */
  ghost predicate ArraysApart(kept: seq<S.Range>, frameAddr: nat, frameSize: nat, poolAddr: nat, poolSize: nat) {
    && (frameAddr != 0 ==> Clear(kept, frameAddr, frameSize))
    && (poolAddr != 0 ==> Clear(kept, poolAddr, poolSize))
    && (frameAddr != 0 && poolAddr != 0 ==> S.Apart(poolAddr, poolSize, S.Range(frameAddr, frameAddr + frameSize)))
  }

  /** The records by start, and behind them that of the array of n bytes, if there is a place for it. */
  function WithArray(rs: seq<S.Range>, memBase: nat, memEnd: nat, n: nat): seq<S.Range> {
    S.Recorded(S.SortByStart(rs), S.FirstFree(rs, memBase, memEnd, n), n)
  }

  /** There is a slot for the record of each array that is placed: the code does not look. */
  predicate SlotsLeft(rs: seq<S.Range>, memBase: nat, memEnd: nat, frameSize: nat, poolSize: nat) {
    var withFrame := WithArray(rs, memBase, memEnd, frameSize);
    && (|rs| < S.MAX_RESERVES || S.FirstFree(rs, memBase, memEnd, frameSize) == 0)
    && (|withFrame| < S.MAX_RESERVES || S.FirstFree(withFrame, memBase, memEnd, poolSize) == 0)
  }

  /**
   * Where the two arrays are. Where no record is nested in another each is in the lowest gap, NULL only if
   * there is none, and they meet no record and not each other.
   */
  ghost predicate LaidOut(rs: seq<S.Range>, memBase: nat, memEnd: nat, frameAddr: nat, frameSize: nat, poolAddr: nat,
                          poolSize: nat) {
    var withFrame := WithArray(rs, memBase, memEnd, frameSize);
    && frameAddr == S.FirstFree(rs, memBase, memEnd, frameSize)
    && poolAddr == S.FirstFree(withFrame, memBase, memEnd, poolSize)
    && (S.Staircase(rs) && frameSize > 0 && poolSize > 0 ==>
          && S.LowestGap(rs, memBase, memEnd, frameSize, frameAddr)
          && S.LowestGap(withFrame, memBase, memEnd, poolSize, poolAddr)
          && ArraysApart(rs, frameAddr, frameSize, poolAddr, poolSize))
  }

  /** Bytes of the frame array and of the page owner array, rounded to pages. */
  function FrameSize(memSize: nat): nat {
    B.RoundUp(memSize / PAGE_SIZE * 4)
  }

  function PoolSize(memSize: nat): nat {
    B.RoundUp(memSize / PAGE_SIZE)
  }

  /** What boot asks of the memory region and the reserved ranges. */
  ghost predicate Startable(memBase: nat, memSize: nat, reserves: seq<S.Range>) {
    && memBase % PAGE_SIZE == 0 && memBase + memSize <= WORD / 2
    && (forall r :: r in reserves ==> r.start < WORD && r.end < WORD)
    && SlotsLeft(Registered(reserves, memBase, memBase + memSize), memBase, memBase + memSize,
                 FrameSize(memSize), PoolSize(memSize))
  }

  ghost predicate ArraysPlaced(memBase: nat, memSize: nat, reserves: seq<S.Range>, frameAddr: nat, poolAddr: nat) {
    LaidOut(Registered(reserves, memBase, memBase + memSize), memBase, memBase + memSize,
            frameAddr, FrameSize(memSize), poolAddr, PoolSize(memSize))
  }

  /** The records the startup allocator ends up with: the clamped reserves and the two metadata arrays. */
  method Layout(memBase: nat, memSize: nat, reserves: seq<S.Range>)
    returns (s: S.Allocator, frameAddr: nat, poolAddr: nat)
    requires Startable(memBase, memSize, reserves)
    ensures fresh(s) && fresh(s.reserves) && s.Valid() && s.memBase == memBase && s.memEnd == memBase + memSize
    ensures ArraysPlaced(memBase, memSize, reserves, frameAddr, poolAddr)
    ensures var rs, memEnd := Registered(reserves, memBase, memBase + memSize), memBase + memSize;
            && s.Records() == WithArray(WithArray(rs, memBase, memEnd, FrameSize(memSize)),
                                        memBase, memEnd, PoolSize(memSize))
            && Placed(rs, s.Records(), frameAddr, FrameSize(memSize), poolAddr, PoolSize(memSize))
  {
    s := new S.Allocator(memBase, memSize);
    RegisterAll(s, reserves);
    var pages := memSize / PAGE_SIZE;
    SizesFit(memBase + memSize, memSize, pages);
    frameAddr, poolAddr := PlaceArrays(s, pages * 4, pages, Registered(reserves, memBase, memBase + memSize));
  }

  method PlaceArrays(s: S.Allocator, frameSize: nat, poolSize: nat, ghost rs: seq<S.Range>)
    returns (frameAddr: nat, poolAddr: nat)
    requires s.Valid() && s.Records() == rs
    requires SlotsLeft(rs, s.memBase, s.memEnd, B.RoundUp(frameSize), B.RoundUp(poolSize))
    requires frameSize <= WORD - PAGE_SIZE && B.RoundUp(s.memEnd) + B.RoundUp(frameSize) < WORD
    requires poolSize <= WORD - PAGE_SIZE && B.RoundUp(s.memEnd) + B.RoundUp(poolSize) < WORD
    modifies s, s.reserves
    ensures s.Valid()
    ensures s.Records() == WithArray(WithArray(rs, s.memBase, s.memEnd, B.RoundUp(frameSize)),
                                     s.memBase, s.memEnd, B.RoundUp(poolSize))
    ensures Placed(rs, s.Records(), frameAddr, B.RoundUp(frameSize), poolAddr, B.RoundUp(poolSize))
    ensures LaidOut(rs, s.memBase, s.memEnd, frameAddr, B.RoundUp(frameSize), poolAddr, B.RoundUp(poolSize))
  {
    hide S.SortByStart, S.FirstFree, S.LowestGap, B.RoundUp, S.Staircase;
    frameAddr := PlaceArray(s, frameSize);
    poolAddr := PlaceArray(s, poolSize);
  }

  /** A metadata array of the given size, placed and recorded by the startup allocator. */
  method PlaceArray(s: S.Allocator, size: nat) returns (addr: nat)
    requires s.Valid() && s.SlotLeft(B.RoundUp(size))
    requires size <= WORD - PAGE_SIZE && B.RoundUp(s.memEnd) + B.RoundUp(size) < WORD
    modifies s, s.reserves
    ensures s.Valid() && addr == S.FirstFree(old(s.Records()), s.memBase, s.memEnd, B.RoundUp(size))
    ensures s.Records() == WithArray(old(s.Records()), s.memBase, s.memEnd, B.RoundUp(size))
    ensures forall x :: x in s.Records() <==>
              x in old(s.Records()) || (addr != 0 && x == S.Range(addr, addr + B.RoundUp(size)))
    ensures S.Staircase(old(s.Records())) ==>
              S.LowestGap(old(s.Records()), s.memBase, s.memEnd, B.RoundUp(size), addr)
    ensures S.Staircase(old(s.Records())) && B.RoundUp(size) > 0 ==>
              S.Staircase(s.Records()) && (addr != 0 ==> Clear(old(s.Records()), addr, B.RoundUp(size)))
  {
    hide S.SortByStart, S.FirstRoomClear, S.FirstFree, B.RoundUp, S.Staircase;
    S.SortMembers(s.Records());
    RoundsToNothing();
    addr := s.Alloc(size);
  }

  lemma RoundsToNothing()
    ensures B.RoundUp(0) == 0
  {
  }

  /**
   * Steps 5 to 9 of kernel boot: register the reserved ranges, place the two metadata arrays with the
   * startup allocator, then initialise, replay and build. Gives null exactly when an array has no place.
   */
  method Start(memBase: nat, memSize: nat, reserves: seq<S.Range>)
    returns (a: B.Allocator?, frameAddr: nat, poolAddr: nat)
    requires Startable(memBase, memSize, reserves)
    ensures a != null <==> frameAddr != 0 && poolAddr != 0
    ensures ArraysPlaced(memBase, memSize, reserves, frameAddr, poolAddr)
    ensures a != null ==>
              && fresh(a) && fresh(a.frame) && a.Valid() && a.live == map[]
              && a.base == memBase && a.end == memBase + memSize && a.frame.Length == memSize / PAGE_SIZE
              && AllProtected(a, reserves, frameAddr, poolAddr)
              && RestFree(a.FreePages(), memBase, memSize, reserves, frameAddr, poolAddr)
  {
    hide Startable, ArraysPlaced, Registered, AllProtected, RestFree, Placed, WithArray, FrameSize, PoolSize;
    StartableRegion(memBase, memSize, reserves);
    a := null;
    var s;
    s, frameAddr, poolAddr := Layout(memBase, memSize, reserves);
    if frameAddr == 0 || poolAddr == 0 {
      return;
    }
    NoneDropped(memBase, memSize, reserves, frameAddr, poolAddr);
    PlacedAligned(memBase, memSize, reserves, frameAddr, poolAddr);
    a := BringUp(s, memBase, memSize, reserves, frameAddr, poolAddr);
  }

  lemma StartableRegion(memBase: nat, memSize: nat, reserves: seq<S.Range>)
    requires Startable(memBase, memSize, reserves)
    ensures memBase % PAGE_SIZE == 0 && memBase + memSize <= WORD / 2
    ensures forall r :: r in reserves ==> r.start < WORD && r.end < WORD
  {
  }

  lemma PlacedAligned(memBase: nat, memSize: nat, reserves: seq<S.Range>, frameAddr: nat, poolAddr: nat)
    requires ArraysPlaced(memBase, memSize, reserves, frameAddr, poolAddr)
    ensures frameAddr % PAGE_SIZE == 0 && poolAddr % PAGE_SIZE == 0
  {
    hide S.FirstFree, Registered, FrameSize, PoolSize;
    var rs, memEnd := Registered(reserves, memBase, memBase + memSize), memBase + memSize;
    S.FirstFreeAligned(rs, memBase, memEnd, FrameSize(memSize));
    S.FirstFreeAligned(WithArray(rs, memBase, memEnd, FrameSize(memSize)), memBase, memEnd, PoolSize(memSize));
  }

  /** If the table has slots for two arrays besides, it holds every range kept. */
  lemma NoneDropped(memBase: nat, memSize: nat, reserves: seq<S.Range>, frameAddr: nat, poolAddr: nat)
    requires Startable(memBase, memSize, reserves) && ArraysPlaced(memBase, memSize, reserves, frameAddr, poolAddr)
    requires frameAddr != 0
    ensures Registered(reserves, memBase, memBase + memSize) == Kept(reserves, memBase, memBase + memSize)
  {
    hide Kept, S.FirstFree, FrameSize, PoolSize;
  }

  /** Steps 7 to 9: buddy_init on the frame array, replay of the records, and build. */
  method BringUp(s: S.Allocator, memBase: nat, memSize: nat, ghost reserves: seq<S.Range>, ghost frameAddr: nat,
                 ghost poolAddr: nat)
    returns (a: B.Allocator)
    requires s.Valid() && memBase % PAGE_SIZE == 0 && memBase + memSize <= WORD / 2 && frameAddr != 0 && poolAddr != 0
    requires frameAddr % PAGE_SIZE == 0 && poolAddr % PAGE_SIZE == 0
    requires forall r :: r in reserves ==> r.start < WORD && r.end < WORD
    requires Placed(Kept(reserves, memBase, memBase + memSize), s.Records(),
                    frameAddr, FrameSize(memSize), poolAddr, PoolSize(memSize))
    ensures fresh(a) && fresh(a.frame) && a.Valid() && a.live == map[]
    ensures a.base == memBase && a.end == memBase + memSize && a.frame.Length == memSize / PAGE_SIZE
    ensures AllProtected(a, reserves, frameAddr, poolAddr)
    ensures RestFree(a.FreePages(), memBase, memSize, reserves, frameAddr, poolAddr)
  {
    hide Kept, B.RoundUp, Placed, Touched, Overlaps;
    var frame := new int[memSize / PAGE_SIZE];
    a := new B.Allocator(memBase, memSize, frame);
    Replay(s, a);
    ReplayProtects(a, old(s.Records()), reserves, frameAddr, poolAddr);
    ReplaySpares(a, old(s.Records()), memSize, reserves, frameAddr, poolAddr);
    a.Build();
  }

  /** Every page is free that touches neither a registered range nor a metadata array. */
  ghost predicate RestFree(free: set<nat>, memBase: nat, memSize: nat, reserves: seq<S.Range>, frameAddr: nat,
                           poolAddr: nat) {
    forall p: nat :: p < memSize / PAGE_SIZE ==>
      || p in free
      || Touched(reserves, memBase, p)
      || Overlaps(memBase, p, frameAddr, frameAddr + memSize / PAGE_SIZE * 4)
      || Overlaps(memBase, p, poolAddr, poolAddr + memSize / PAGE_SIZE)
  }

  /** Rounding an array's size to pages adds no page. */
  lemma RoundedTouches(base: nat, p: nat, addr: nat, size: nat)
    requires base % PAGE_SIZE == 0 && addr % PAGE_SIZE == 0 && size <= WORD - PAGE_SIZE
    requires Overlaps(base, p, addr, addr + B.RoundUp(size))
    ensures Overlaps(base, p, addr, addr + size)
  {
    var a, b := addr / PAGE_SIZE, base / PAGE_SIZE;
    assert addr == a * PAGE_SIZE && base + p * PAGE_SIZE == (b + p) * PAGE_SIZE;
  }

  lemma {:induction false} KeptFrom(reserves: seq<S.Range>, memBase: nat, memEnd: nat, c: S.Range) returns (i: nat)
    requires c in Kept(reserves, memBase, memEnd)
    ensures i < |reserves| && c == Clamped(reserves[i], memBase, memEnd) && c.start < c.end
  {
    var n := |reserves| - 1;
    i := n;
    if c in Kept(reserves[..n], memBase, memEnd) {
      i := KeptFrom(reserves[..n], memBase, memEnd, c);
    }
  }

  /** A record of a range touches no page that the range does not. */
  lemma KeptTouches(a: B.Allocator, reserves: seq<S.Range>, c: S.Range, p: nat)
    requires a.Geometry() && a.end <= WORD / 2 && p < a.frame.Length && c in Kept(reserves, a.base, a.end)
    requires forall r :: r in reserves ==> r.start < WORD && r.end < WORD
    requires Overlaps(a.base, p, c.start, c.end)
    ensures Touched(reserves, a.base, p)
  {
    var i := KeptFrom(reserves, a.base, a.end, c);
    assert reserves[i] in reserves;
    if reserves[i].end > WORD - PAGE_SIZE {
      B.RoundsToZero(reserves[i].end);
    } else {
      ClampKeepsPages(reserves[i], a.base, a.end, p);
    }
  }

  lemma ReplaySpares(a: B.Allocator, records: seq<S.Range>, memSize: nat, reserves: seq<S.Range>, frameAddr: nat,
                     poolAddr: nat)
    requires a.Fresh() && a.end == a.base + memSize && a.end <= WORD / 2
    requires frameAddr % PAGE_SIZE == 0 && poolAddr % PAGE_SIZE == 0
    requires forall r :: r in reserves ==> r.start < WORD && r.end < WORD
    requires forall p: nat :: p < a.frame.Length && p in a.ReservedPages() ==> Touched(records, a.base, p)
    requires Placed(Kept(reserves, a.base, a.end), records,
                    frameAddr, FrameSize(memSize), poolAddr, PoolSize(memSize))
    ensures RestFree(a.FreePages(), a.base, memSize, reserves, frameAddr, poolAddr)
  {
    hide B.RoundUp, Kept;
    forall p: nat | p < a.frame.Length && p in a.ReservedPages()
      ensures || Touched(reserves, a.base, p)
              || Overlaps(a.base, p, frameAddr, frameAddr + memSize / PAGE_SIZE * 4)
              || Overlaps(a.base, p, poolAddr, poolAddr + memSize / PAGE_SIZE)
    {
      var k :| 0 <= k < |records| && Overlaps(a.base, p, records[k].start, records[k].end);
      assert records[k] in records;
      if records[k] in Kept(reserves, a.base, a.end) {
        KeptTouches(a, reserves, records[k], p);
      } else if frameAddr != 0 && records[k] == S.Range(frameAddr, frameAddr + FrameSize(memSize)) {
        RoundedTouches(a.base, p, frameAddr, memSize / PAGE_SIZE * 4);
      } else {
        RoundedTouches(a.base, p, poolAddr, memSize / PAGE_SIZE);
      }
    }
  }

  /** Once every record is protected, so is everything the records were made for. */
  lemma ReplayProtects(a: B.Allocator, records: seq<S.Range>, reserves: seq<S.Range>, frameAddr: nat, poolAddr: nat)
    requires a.Geometry() && a.end <= WORD / 2 && frameAddr != 0 && poolAddr != 0
    requires forall p: nat :: p < a.frame.Length && Touched(records, a.base, p) ==> p in a.ReservedPages()
    requires Placed(Kept(reserves, a.base, a.end), records, frameAddr, B.RoundUp(a.frame.Length * 4), poolAddr,
                    B.RoundUp(a.frame.Length))
    ensures AllProtected(a, reserves, frameAddr, poolAddr)
  {
    forall x | x in records ensures Protected(a, x.start, x.end) {
      var k :| 0 <= k < |records| && records[k] == x;
    }
    forall r | r in reserves && r.end <= WORD - PAGE_SIZE ensures Protected(a, r.start, r.end) {
      var c := Clamped(r, a.base, a.end);
      if c.start < c.end {
        KeptMembers(reserves, a.base, a.end, r);
      }
      ClampProtects(a, r, records);
    }
    ArrayProtected(a, records, frameAddr, a.frame.Length * 4);
    ArrayProtected(a, records, poolAddr, a.frame.Length);
  }

  lemma ArrayProtected(a: B.Allocator, records: seq<S.Range>, addr: nat, size: nat)
    requires forall x :: x in records ==> Protected(a, x.start, x.end)
    requires S.Range(addr, addr + B.RoundUp(size)) in records && size <= WORD - PAGE_SIZE
    ensures Protected(a, addr, addr + size)
  {
    S.RoundUpMonotone(size, size);
    Widen(a, addr, addr + B.RoundUp(size), addr + size);
  }

  lemma ClampProtects(a: B.Allocator, r: S.Range, records: seq<S.Range>)
    requires a.Geometry() && r.end <= WORD - PAGE_SIZE
    requires forall x :: x in records ==> Protected(a, x.start, x.end)
    requires var c := Clamped(r, a.base, a.end); c.start < c.end ==> c in records
    ensures Protected(a, r.start, r.end)
  {
    forall p: nat | p < a.frame.Length && Overlaps(a.base, p, r.start, r.end) ensures p in a.ReservedPages() {
      ClampKeepsPages(r, a.base, a.end, p);
    }
  }

  lemma Widen(a: B.Allocator, start: nat, stop: nat, stop': nat)
    requires Protected(a, start, stop) && stop' <= stop
    ensures Protected(a, start, stop')
  {
  }

  lemma SizesFit(memEnd: nat, memSize: nat, pages: nat)
    requires memSize <= memEnd <= WORD / 2 && pages == memSize / PAGE_SIZE
    ensures pages * 4 <= memSize
    ensures B.RoundUp(memEnd) + B.RoundUp(pages * 4) < WORD && pages * 4 <= B.RoundUp(pages * 4)
    ensures B.RoundUp(memEnd) + B.RoundUp(pages) < WORD && pages <= B.RoundUp(pages)
  {
  }

  // ---- runs of the allocator ----

  /** What a client sees between two requests: the free pages, the blocks it holds in order, and their orders. */
  datatype Moment = Moment(free: set<nat>, held: seq<nat>, live: map<nat, nat>)

  /** The client holds exactly the live blocks. */
  ghost predicate Holds(a: B.Allocator, held: seq<nat>)
    reads a
  {
    NoDup(held) && forall i :: i in held <==> i in a.live
  }

  ghost function Now(a: B.Allocator, held: seq<nat>): Moment
    reads a, a.frame
  {
    Moment(a.FreePages(), held, a.live)
  }

  /** No aligned run of free pages can serve the request. */
  ghost predicate Unservable(free: set<nat>, size: nat, order: nat) {
    size == 0 || order > MAX_ORDER || !HasBlock(free, order)
  }

  /** The block of that order was free, is the client's now, and nothing else has changed. */
  ghost predicate HandedOut(m: Moment, block: nat, order: nat, m': Moment) {
    && FreeBlock(m.free, block, order)
    && m' == Moment(m.free - Pages(block, order), m.held + [block], m.live[block := order])
  }

  /**
   * One request, with the pointer it returns. An allocation fails only if nothing can serve it; a free
   * gives back exactly the pages of a block still held.
   */
  ghost predicate Serves(m: Moment, request: Request, base: nat, ptr: nat, m': Moment) {
    match request
    case Alloc(size) =>
      exists order: nat ::
        && B.LeastOrder(B.PagesNeeded(size), order)
        && if ptr == 0 then m' == m && Unservable(m.free, size, order)
           else BlockAt(base, ptr) >= 0 && HandedOut(m, BlockAt(base, ptr), order, m')
    case Free(which) =>
      && ptr == 0
      && if which < |m.held| then m.held[which] in m.live && m' == Given(m, which) else m' == m
  }

  /** Index of the page at ptr. */
  function BlockAt(base: nat, ptr: nat): int {
    (ptr - base) / PAGE_SIZE
  }

  /** m with the block given back that the client holds at this place. */
  ghost function Given(m: Moment, which: nat): Moment
    requires which < |m.held| && m.held[which] in m.live
  {
    var h := m.held[which];
    Moment(m.free + Pages(h, m.live[h]), Without(m.held, which), m.live - {h})
  }

  /** trace[0], script[0], trace[1], .. is a run with these results. */
  ghost predicate IsRun(trace: seq<Moment>, script: seq<Request>, base: nat, ptrs: seq<nat>) {
    && |trace| == |script| + 1 && |ptrs| == |script|
    && forall i :: 0 <= i < |script| ==> Serves(trace[i], script[i], base, ptrs[i], trace[i + 1])
  }

  /** Only pages of the region that are not reserved are ever free. */
  ghost predicate FreeWithin(trace: seq<Moment>, pages: nat, reserved: set<nat>) {
    forall i :: 0 <= i < |trace| ==> UnreservedWithin(trace[i].free, pages, reserved)
  }

  ghost predicate UnreservedWithin(free: set<nat>, pages: nat, reserved: set<nat>) {
    forall p :: p in free ==> p < pages && p !in reserved
  }

  /**
   * Any client of the running allocator: a script of allocations and of frees of blocks it still holds.
   * The trace says what every request did; no reserved page is ever free; once everything is freed every
   * list holds the blocks it held at the start.
   */
  method Run(a: B.Allocator, script: seq<Request>) returns (ptrs: seq<nat>, held: seq<nat>, ghost trace: seq<Moment>)
    requires a.Valid() && a.live == map[] && (a.base > 0 || 0 in a.ReservedPages())
    requires forall x :: x in script && x.Alloc? ==> x.size < WORD
    modifies a, a.frame
    ensures a.Valid() && a.ReservedPages() == old(a.ReservedPages()) && Holds(a, held)
    ensures IsRun(trace, script, a.base, ptrs) && FreeWithin(trace, a.frame.Length, a.ReservedPages())
    ensures trace[0] == old(Now(a, [])) && trace[|script|] == Now(a, held)
    ensures held == [] ==> forall k: nat :: k <= MAX_ORDER ==> multiset(a.freeList[k]) == multiset(old(a.freeList)[k])
  {
    ptrs, held, trace := [], [], [];
    FreeGrows(a, trace, held);
    trace := trace + [Now(a, held)];
    for n := 0 to |script|
      invariant a.Valid() && a.ReservedPages() == old(a.ReservedPages()) && Holds(a, held)
      invariant IsRun(trace, script[..n], a.base, ptrs) && FreeWithin(trace, a.frame.Length, a.ReservedPages())
      invariant trace[0] == old(Now(a, [])) && trace[n] == Now(a, held)
    {
      assert script[n] in script && script[..n + 1] == script[..n] + [script[n]];
      var ptr;
      held, ptr := Serve(a, script[n], held);
      RunGrows(trace, script[..n], a.base, ptrs, script[n], ptr, Now(a, held));
      FreeGrows(a, trace, held);
      ptrs, trace := ptrs + [ptr], trace + [Now(a, held)];
    }
    assert script[..|script|] == script;
    if held == [] {
      assert a.live == map[];
      B.Restoration(old(a.frame[..]), old(a.freeList), a.frame[..], a.freeList, map[]);
    }
  }

  lemma RunGrows(trace: seq<Moment>, script: seq<Request>, base: nat, ptrs: seq<nat>, request: Request, ptr: nat,
                 m: Moment)
    requires IsRun(trace, script, base, ptrs) && Serves(trace[|script|], request, base, ptr, m)
    ensures IsRun(trace + [m], script + [request], base, ptrs + [ptr])
  {
  }

  lemma FreeGrows(a: B.Allocator, trace: seq<Moment>, held: seq<nat>)
    requires FreeWithin(trace, a.frame.Length, a.ReservedPages())
    ensures FreeWithin(trace + [Now(a, held)], a.frame.Length, a.ReservedPages())
  {
    forall p | p in a.FreePages() ensures p < a.frame.Length && p !in a.ReservedPages() {
      assert FreeCode(a.frame[p]);
    }
  }

  method Serve(a: B.Allocator, request: Request, held: seq<nat>) returns (held': seq<nat>, ptr: nat)
    requires a.Valid() && Holds(a, held) && (a.base > 0 || 0 in a.ReservedPages())
    requires request.Alloc? ==> request.size < WORD
    modifies a, a.frame
    ensures a.Valid() && a.ReservedPages() == old(a.ReservedPages()) && Holds(a, held')
    ensures Serves(old(Now(a, held)), request, a.base, ptr, Now(a, held'))
  {
    match request {
      case Alloc(size) =>
        held', ptr := Take(a, size, held);
      case Free(which) =>
        held', ptr := held, 0;
        if which < |held| {
          held' := Release(a, held, which);
        }
    }
  }

  method Take(a: B.Allocator, size: nat, held: seq<nat>) returns (held': seq<nat>, ptr: nat)
    requires a.Valid() && Holds(a, held) && (a.base > 0 || 0 in a.ReservedPages()) && size < WORD
    modifies a, a.frame
    ensures a.Valid() && a.ReservedPages() == old(a.ReservedPages()) && Holds(a, held')
    ensures Serves(old(Now(a, held)), Alloc(size), a.base, ptr, Now(a, held'))
  {
    held' := held;
    ghost var block, order;
    ptr, block, order := a.Alloc(size);
    if ptr != 0 {
      IndexOfAddr(a.base, block.value);
      held' := held + [a.Index(ptr)];
    }
  }

  method Release(a: B.Allocator, held: seq<nat>, which: nat) returns (held': seq<nat>)
    requires a.Valid() && Holds(a, held) && (a.base > 0 || 0 in a.ReservedPages()) && which < |held|
    modifies a, a.frame
    ensures a.Valid() && a.ReservedPages() == old(a.ReservedPages()) && Holds(a, held')
    ensures held[which] in old(a.live) && Now(a, held') == old(Given(Now(a, held), which))
  {
    var idx: nat := held[which];
    WithoutMembers(held, which);
    IndexOfAddr(a.base, idx);
    B.LiveAddress(a, idx);
    a.Free(a.Addr(idx));
    held' := Without(held, which);
  }

  /** No page of any block that the run hands out shares a byte with the range. */
  ghost predicate NeverHandsOut(trace: seq<Moment>, base: nat, start: nat, stop: nat) {
    forall i, block: nat, order: nat, p: nat ::
      0 <= i < |trace| - 1 && HandedOut(trace[i], block, order, trace[i + 1]) && p in Pages(block, order) ==>
      !Overlaps(base, p, start, stop)
  }

  lemma ProtectedNeverHandedOut(a: B.Allocator, trace: seq<Moment>, start: nat, stop: nat)
    requires FreeWithin(trace, a.frame.Length, a.ReservedPages()) && Protected(a, start, stop)
    ensures NeverHandsOut(trace, a.base, start, stop)
  {
  }

  /** As NeverHandsOut, for the registered ranges and both metadata arrays. */
  ghost predicate NeverHandsOutAny(trace: seq<Moment>, base: nat, pages: nat, reserves: seq<S.Range>, frameAddr: nat,
                                   poolAddr: nat) {
    && (forall r :: r in reserves && r.end <= WORD - PAGE_SIZE ==> NeverHandsOut(trace, base, r.start, r.end))
    && NeverHandsOut(trace, base, frameAddr, frameAddr + pages * 4)
    && NeverHandsOut(trace, base, poolAddr, poolAddr + pages)
  }

  lemma AllNeverHandedOut(a: B.Allocator, trace: seq<Moment>, reserves: seq<S.Range>, frameAddr: nat, poolAddr: nat)
    requires FreeWithin(trace, a.frame.Length, a.ReservedPages()) && AllProtected(a, reserves, frameAddr, poolAddr)
    ensures NeverHandsOutAny(trace, a.base, a.frame.Length, reserves, frameAddr, poolAddr)
  {
    forall r | r in reserves && r.end <= WORD - PAGE_SIZE ensures NeverHandsOut(trace, a.base, r.start, r.end) {
      ProtectedNeverHandedOut(a, trace, r.start, r.end);
    }
    ProtectedNeverHandedOut(a, trace, frameAddr, frameAddr + a.frame.Length * 4);
    ProtectedNeverHandedOut(a, trace, poolAddr, poolAddr + a.frame.Length);
  }

  /** The null pointer is no page of the region, or that page is reserved. */
  ghost predicate NullSafe(memBase: nat, memSize: nat, reserves: seq<S.Range>) {
    memBase > 0 ||
    (memSize >= PAGE_SIZE && exists r :: r in reserves && r.end <= WORD - PAGE_SIZE && Overlaps(0, 0, r.start, r.end))
  }

  /**
   * Boot, then any client: no page of any block handed out shares a byte with a registered range or with
   * one of the metadata arrays. Not up exactly when a metadata array has no place.
   */
  method BootAndServe(memBase: nat, memSize: nat, reserves: seq<S.Range>, script: seq<Request>)
    returns (up: bool, frameAddr: nat, poolAddr: nat, ptrs: seq<nat>, ghost trace: seq<Moment>)
    requires Startable(memBase, memSize, reserves) && NullSafe(memBase, memSize, reserves)
    requires forall x :: x in script && x.Alloc? ==> x.size < WORD
    ensures up <==> frameAddr != 0 && poolAddr != 0
    ensures ArraysPlaced(memBase, memSize, reserves, frameAddr, poolAddr)
    ensures up ==>
              && IsRun(trace, script, memBase, ptrs) && trace[0].held == [] && trace[0].live == map[]
              && RestFree(trace[0].free, memBase, memSize, reserves, frameAddr, poolAddr)
              && NeverHandsOutAny(trace, memBase, memSize / PAGE_SIZE, reserves, frameAddr, poolAddr)
  {
    hide Startable, ArraysPlaced, AllProtected, NeverHandsOutAny, RestFree, IsRun;
    var a;
    a, frameAddr, poolAddr := Start(memBase, memSize, reserves);
    up, ptrs, trace := a != null, [], [];
    if a != null {
      NullPageReserved(a, memSize, reserves, frameAddr, poolAddr);
      ptrs, trace := RunProtected(a, script, reserves, frameAddr, poolAddr);
    }
  }

  lemma NullPageReserved(a: B.Allocator, memSize: nat, reserves: seq<S.Range>, frameAddr: nat, poolAddr: nat)
    requires NullSafe(a.base, memSize, reserves) && AllProtected(a, reserves, frameAddr, poolAddr)
    requires a.frame.Length == memSize / PAGE_SIZE
    ensures a.base > 0 || 0 in a.ReservedPages()
  {
  }

  method RunProtected(a: B.Allocator, script: seq<Request>, ghost reserves: seq<S.Range>, ghost frameAddr: nat,
                      ghost poolAddr: nat)
    returns (ptrs: seq<nat>, ghost trace: seq<Moment>)
    requires a.Valid() && a.live == map[] && (a.base > 0 || 0 in a.ReservedPages())
    requires forall x :: x in script && x.Alloc? ==> x.size < WORD
    requires AllProtected(a, reserves, frameAddr, poolAddr)
    modifies a, a.frame
    ensures IsRun(trace, script, a.base, ptrs) && trace[0] == old(Now(a, []))
    ensures NeverHandsOutAny(trace, a.base, a.frame.Length, reserves, frameAddr, poolAddr)
  {
    hide NeverHandsOutAny, IsRun;
    var held;
    ptrs, held, trace := Run(a, script);
    AllNeverHandedOut(a, trace, reserves, frameAddr, poolAddr);
  }

  lemma IndexOfAddr(base: nat, idx: nat)
    ensures (base + idx * PAGE_SIZE - base) / PAGE_SIZE == idx
  {
  }
}
