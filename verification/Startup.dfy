/** The first-fit allocator used before the page-frame allocator exists. */
module Startup {
  import opened Arith
  import opened Frames
  import opened Sequences
  import opened Buddy

  const MAX_RESERVES: nat := 16

  datatype Range = Range(start: nat, end: nat)

  ghost predicate Sorted(rs: seq<Range>) {
    forall a, b :: 0 <= a < b < |rs| ==> rs[a].start <= rs[b].start
  }

  /**
   * No record is empty, and one that starts no earlier also ends no earlier. Non-empty records none
   * of which is nested inside another have this shape.
   */
  ghost predicate Staircase(rs: seq<Range>) {
    && (forall r :: r in rs ==> r.start < r.end)
    && (forall r, s :: r in rs && s in rs && r.start <= s.start ==> r.end <= s.end)
  }

  ghost predicate WithinMemory(rs: seq<Range>, memBase: nat, memEnd: nat) {
    forall r :: r in rs ==> memBase <= r.start <= r.end <= memEnd
  }

  ghost predicate Apart(a: nat, size: nat, r: Range) {
    a + size <= r.start || r.end <= a
  }

  /** a is a page-aligned address at which size bytes of memory meet no record. */
  ghost predicate Fits(rs: seq<Range>, memBase: nat, memEnd: nat, size: nat, a: nat) {
    a % PAGE_SIZE == 0 && memBase <= a && a + size <= memEnd && forall r :: r in rs ==> Apart(a, size, r)
  }

  /** The scan of sa_find_first_free from record i on; 0 is its failure value. */
  function Scan(rs: seq<Range>, i: nat, cursor: nat, memEnd: nat, size: nat): nat
    requires i <= |rs|
    decreases |rs| - i
  {
    var window := if i < |rs| then rs[i].start else memEnd;
    var c := RoundUp(cursor);
    if (c + size) % WORD <= window then c
    else if i < |rs| then Scan(rs, i + 1, rs[i].end, memEnd, size)
    else 0
  }

  /** Non-empty records in the order of their starts, and no address arithmetic that wraps. */
  ghost predicate Scannable(rs: seq<Range>, memBase: nat, memEnd: nat, size: nat) {
    && Sorted(rs) && (forall k :: 0 <= k < |rs| ==> memBase <= rs[k].start < rs[k].end <= memEnd)
    && memBase <= memEnd <= WORD - PAGE_SIZE && RoundUp(memEnd) + size < WORD
  }

  ghost predicate NoneBelow(rs: seq<Range>, memBase: nat, memEnd: nat, size: nat, a: nat) {
    forall b: nat :: b < a ==> !Fits(rs, memBase, memEnd, size, b)
  }

  /** The first j records end at or before a. */
  ghost predicate AllEnded(rs: seq<Range>, j: nat, a: nat) {
    forall k :: 0 <= k < j && k < |rs| ==> rs[k].end <= a
  }

  /** The end of the record before record j. */
  function CursorAt(rs: seq<Range>, j: nat, memBase: nat): nat
    requires j <= |rs|
  {
    if j == 0 then memBase else rs[j - 1].end
  }

  /** The first page boundary behind the record before record j. */
  function PlaceAt(rs: seq<Range>, j: nat, memBase: nat): nat
    requires j <= |rs|
  {
    RoundUp(CursorAt(rs, j, memBase))
  }

  /** The start of record j, or the end of memory behind the last one. */
  function WindowEnd(rs: seq<Range>, j: nat, memEnd: nat): nat
    requires j <= |rs|
  {
    if j < |rs| then rs[j].start else memEnd
  }

  /** size bytes have room between the record before record j and record j. */
  ghost predicate Room(rs: seq<Range>, j: nat, memBase: nat, memEnd: nat, size: nat) {
    j <= |rs| && PlaceAt(rs, j, memBase) + size <= WindowEnd(rs, j, memEnd)
  }

  ghost predicate NoRoomBefore(rs: seq<Range>, j: nat, memBase: nat, memEnd: nat, size: nat) {
    forall i: nat :: i < j ==> !Room(rs, i, memBase, memEnd, size)
  }

  ghost predicate FirstRoom(rs: seq<Range>, j: nat, memBase: nat, memEnd: nat, size: nat) {
    Room(rs, j, memBase, memEnd, size) && NoRoomBefore(rs, j, memBase, memEnd, size)
  }

  /** No earlier record reaches into the first window with room. */
  ghost predicate FirstRoomClear(rs: seq<Range>, memBase: nat, memEnd: nat, size: nat) {
    forall j: nat :: FirstRoom(rs, j, memBase, memEnd, size) ==> AllEnded(rs, j, PlaceAt(rs, j, memBase))
  }

  /** The scan stops at the first window with room at or after i; j is beyond the records when there is none. */
  lemma {:induction false} ScanStops(rs: seq<Range>, i: nat, memBase: nat, memEnd: nat, size: nat) returns (j: nat)
    requires i <= |rs| && Scannable(rs, memBase, memEnd, size) && NoRoomBefore(rs, i, memBase, memEnd, size)
    ensures NoRoomBefore(rs, j, memBase, memEnd, size) && j <= |rs| + 1
    ensures var r := Scan(rs, i, CursorAt(rs, i, memBase), memEnd, size);
            if j <= |rs| then Room(rs, j, memBase, memEnd, size) && r == PlaceAt(rs, j, memBase) else r == 0
    decreases |rs| - i
  {
    NoWrap(CursorAt(rs, i, memBase), memEnd, size);
    if Room(rs, i, memBase, memEnd, size) {
      j := i;
    } else if i < |rs| {
      j := ScanStops(rs, i + 1, memBase, memEnd, size);
    } else {
      j := i + 1;
    }
  }

  /** Windows without room hide no gap. */
  lemma {:induction false} NothingPassed(rs: seq<Range>, j: nat, memBase: nat, memEnd: nat, size: nat)
    requires j <= |rs| && Scannable(rs, memBase, memEnd, size) && NoRoomBefore(rs, j, memBase, memEnd, size)
    ensures NoneBelow(rs, memBase, memEnd, size, PlaceAt(rs, j, memBase))
  {
    if j > 0 {
      NothingPassed(rs, j - 1, memBase, memEnd, size);
      assert !Room(rs, j - 1, memBase, memEnd, size);
      CoveredByRecord(rs, j - 1, PlaceAt(rs, j - 1, memBase), memBase, memEnd, size);
    }
    RoundUpMonotone(CursorAt(rs, j, memBase), memEnd);
    NothingBelowNext(rs, CursorAt(rs, j, memBase), PlaceAt(rs, j, memBase), memBase, memEnd, size);
  }

  lemma GapAt(rs: seq<Range>, j: nat, memBase: nat, memEnd: nat, size: nat)
    requires Scannable(rs, memBase, memEnd, size) && Room(rs, j, memBase, memEnd, size)
    ensures var c := PlaceAt(rs, j, memBase);
            (Fits(rs, memBase, memEnd, size, c) <==> AllEnded(rs, j, c)) && (c == 0 ==> j == 0)
  {
    var c := PlaceAt(rs, j, memBase);
    RoundUpMonotone(CursorAt(rs, j, memBase), memEnd);
    if Fits(rs, memBase, memEnd, size, c) {
      forall k | 0 <= k < j ensures rs[k].end <= c {
        assert rs[k] in rs;
        assert Apart(c, size, rs[k]);
        assert rs[k].start <= rs[j - 1].start;
      }
    }
  }

  /**
   * Whatever the records, the scan stops at the first window with room and has passed over no gap; where
   * no window has room nothing fits. The address found is a gap iff no earlier record reaches beyond it.
   */
  lemma ScanExact(rs: seq<Range>, memBase: nat, memEnd: nat, size: nat) returns (j: nat)
    requires Scannable(rs, memBase, memEnd, size)
    ensures var r := Scan(rs, 0, memBase, memEnd, size);
            if j <= |rs| then
              && FirstRoom(rs, j, memBase, memEnd, size) && r == PlaceAt(rs, j, memBase)
              && NoneBelow(rs, memBase, memEnd, size, r)
              && (Fits(rs, memBase, memEnd, size, r) <==> AllEnded(rs, j, r)) && (r == 0 ==> j == 0)
            else
              && r == 0 && NoRoomBefore(rs, |rs| + 1, memBase, memEnd, size)
              && forall a: nat :: !Fits(rs, memBase, memEnd, size, a)
  {
    j := ScanStops(rs, 0, memBase, memEnd, size);
    if j <= |rs| {
      NothingPassed(rs, j, memBase, memEnd, size);
      GapAt(rs, j, memBase, memEnd, size);
    } else {
      assert !Room(rs, |rs|, memBase, memEnd, size);
      NothingPassed(rs, |rs|, memBase, memEnd, size);
    }
  }

  /** First fit holds iff, on the records alone, no earlier record reaches into the first window with room. */
  lemma FirstFitIff(rs: seq<Range>, memBase: nat, memEnd: nat, size: nat)
    requires Scannable(rs, memBase, memEnd, size)
    ensures LowestGap(rs, memBase, memEnd, size, Scan(rs, 0, memBase, memEnd, size))
            <==> FirstRoomClear(rs, memBase, memEnd, size)
  {
    var j := ScanExact(rs, memBase, memEnd, size);
    forall j': nat | FirstRoom(rs, j', memBase, memEnd, size) ensures j' == j {
      FirstRoomUnique(rs, j, j', memBase, memEnd, size);
    }
  }

  lemma FirstRoomUnique(rs: seq<Range>, j: nat, j': nat, memBase: nat, memEnd: nat, size: nat)
    requires FirstRoom(rs, j', memBase, memEnd, size)
    requires if j <= |rs| then FirstRoom(rs, j, memBase, memEnd, size)
             else NoRoomBefore(rs, |rs| + 1, memBase, memEnd, size)
    ensures j' == j
  {
    assert j < j' ==> !Room(rs, j, memBase, memEnd, size);
    assert j' < j ==> !Room(rs, j', memBase, memEnd, size);
  }

  /** On sorted records in staircase shape the scan finds the lowest gap, and fails only when there is none. */
  lemma ScanIsFirstFit(rs: seq<Range>, memBase: nat, memEnd: nat, size: nat)
    requires Scannable(rs, memBase, memEnd, size) && Staircase(rs)
    ensures FirstRoomClear(rs, memBase, memEnd, size)
    ensures LowestGap(rs, memBase, memEnd, size, Scan(rs, 0, memBase, memEnd, size))
  {
    forall j: nat | FirstRoom(rs, j, memBase, memEnd, size) ensures AllEnded(rs, j, PlaceAt(rs, j, memBase)) {
      RoundUpMonotone(CursorAt(rs, j, memBase), memEnd);
      forall k | 0 <= k < j && k < |rs| ensures rs[k].end <= rs[j - 1].end {
        assert rs[k] in rs && rs[j - 1] in rs && rs[k].start <= rs[j - 1].start;
      }
    }
    FirstFitIff(rs, memBase, memEnd, size);
  }

  lemma NothingBelowNext(rs: seq<Range>, cursor: nat, c: nat, memBase: nat, memEnd: nat, size: nat)
    requires c % PAGE_SIZE == 0 && cursor <= c < cursor + PAGE_SIZE
    requires NoneBelow(rs, memBase, memEnd, size, cursor)
    ensures NoneBelow(rs, memBase, memEnd, size, c)
  {
    forall a: nat | a < c ensures !Fits(rs, memBase, memEnd, size, a) {
      if a % PAGE_SIZE == 0 {
        NextPage(a, c);
      }
    }
  }

  lemma NextPage(a: nat, c: nat)
    requires a % PAGE_SIZE == 0 && c % PAGE_SIZE == 0 && a < c
    ensures a + PAGE_SIZE <= c
  {
  }

  lemma CoveredByRecord(rs: seq<Range>, i: nat, c: nat, memBase: nat, memEnd: nat, size: nat)
    requires i < |rs| && c + size > rs[i].start
    requires NoneBelow(rs, memBase, memEnd, size, c)
    ensures NoneBelow(rs, memBase, memEnd, size, rs[i].end)
  {
    assert rs[i] in rs;
    assert forall a: nat :: c <= a < rs[i].end ==> !Apart(a, size, rs[i]);
  }

  /** Nested records defeat the scan: the cursor falls back to the inner record's end. */
  lemma NestedRecordsOverlap()
    ensures var rs := [Range(0x1000, 0x9000), Range(0x2000, 0x3000)];
            && Sorted(rs) && !Staircase(rs) && WithinMemory(rs, 0x1000, 0xA000)
            && Scan(rs, 0, 0x1000, 0xA000, 0x2000) == 0x3000
            && !Fits(rs, 0x1000, 0xA000, 0x2000, 0x3000)
  {
    var rs := [Range(0x1000, 0x9000), Range(0x2000, 0x3000)];
    assert rs[0] in rs && rs[1] in rs;
    FallsBack(rs);
    assert !Apart(0x3000, 0x2000, rs[0]);
  }

  lemma FallsBack(rs: seq<Range>)
    requires |rs| == 2 && rs[0] == Range(0x1000, 0x9000) && rs[1] == Range(0x2000, 0x3000)
    ensures Scan(rs, 0, 0x1000, 0xA000, 0x2000) == 0x3000
  {
    assert Scan(rs, 2, 0x3000, 0xA000, 0x2000) == 0x3000;
    assert Scan(rs, 1, 0x9000, 0xA000, 0x2000) == Scan(rs, 2, 0x3000, 0xA000, 0x2000);
  }

  // ---- the insertion sort ----

  /** s with r behind the last record that starts no later. */
  function Placed(s: seq<Range>, r: Range): seq<Range> {
    if s == [] || s[|s| - 1].start <= r.start then s + [r]
    else Placed(s[..|s| - 1], r) + [s[|s| - 1]]
  }

  /** The records by start, those with equal starts in the order they had. */
  function SortByStart(rs: seq<Range>): seq<Range> {
    if rs == [] then [] else Placed(SortByStart(rs[..|rs| - 1]), rs[|rs| - 1])
  }

  lemma {:induction false} SlotIsPlaced(s: seq<Range>, k: nat, r: Range)
    requires k <= |s| && (k > 0 ==> s[k - 1].start <= r.start)
    requires forall i :: k <= i < |s| ==> r.start < s[i].start
    ensures InsertAt(s, k, r) == Placed(s, r)
  {
    if k < |s| {
      var t := s[..|s| - 1];
      SlotIsPlaced(t, k, r);
      assert InsertAt(s, k, r) == InsertAt(t, k, r) + [s[|s| - 1]];
    } else {
      assert InsertAt(s, k, r) == s + [r];
    }
  }

  /** Record i moved down to place j, the records in between up by one. */
  lemma ShiftedIsPlaced(was: seq<Range>, now: seq<Range>, i: nat, j: nat)
    requires j <= i < |was| == |now| && (j > 0 ==> was[j - 1].start <= was[i].start)
    requires forall k :: 0 <= k < j ==> now[k] == was[k]
    requires now[j] == was[i]
    requires forall k :: j < k <= i ==> now[k] == was[k - 1] && was[i].start < now[k].start
    requires forall k :: i < k < |was| ==> now[k] == was[k]
    ensures now == Placed(was[..i], was[i]) + was[i + 1..]
  {
    var s := was[..i];
    forall k | j <= k < i ensures was[i].start < s[k].start {
      assert now[k + 1] == s[k];
    }
    SlotIsPlaced(s, j, was[i]);
    assert now == InsertAt(s, j, was[i]) + was[i + 1..];
  }

  lemma {:induction false} PlacedPermutes(s: seq<Range>, r: Range)
    ensures multiset(Placed(s, r)) == multiset(s) + multiset{r}
  {
    if s != [] && s[|s| - 1].start > r.start {
      PlacedPermutes(s[..|s| - 1], r);
      assert s == s[..|s| - 1] + [s[|s| - 1]];
    }
  }

  /** Nothing in s starts later than x. */
  ghost predicate StartsBy(s: seq<Range>, x: nat) {
    forall k :: 0 <= k < |s| ==> s[k].start <= x
  }

  lemma {:induction false} PlacedSorted(s: seq<Range>, r: Range, x: nat)
    requires Sorted(s) && StartsBy(s, x) && r.start <= x
    ensures Sorted(Placed(s, r)) && StartsBy(Placed(s, r), x)
  {
    if s != [] && s[|s| - 1].start > r.start {
      PlacedSorted(s[..|s| - 1], r, s[|s| - 1].start);
    }
  }

  /** Sorted by start, and a permutation. */
  lemma {:induction false} SortByStartSorts(rs: seq<Range>)
    ensures Sorted(SortByStart(rs)) && multiset(SortByStart(rs)) == multiset(rs)
  {
    if rs != [] {
      var t := rs[..|rs| - 1];
      assert rs == t + [rs[|rs| - 1]];
      SortByStartSorts(t);
      var last := rs[|rs| - 1];
      var s := SortByStart(t);
      PlacedSorted(s, last, if s != [] && s[|s| - 1].start > last.start then s[|s| - 1].start else last.start);
      PlacedPermutes(s, last);
    }
  }

  /** The first i records are sorted, the rest are as they were. */
  ghost predicate SortedTo(now: seq<Range>, rs: seq<Range>, i: nat) {
    now == if i <= |rs| then SortByStart(rs[..i]) + rs[i..] else rs
  }

  lemma SortMembers(rs: seq<Range>)
    ensures forall r :: r in SortByStart(rs) <==> r in rs
    ensures |SortByStart(rs)| == |rs|
  {
    SortByStartSorts(rs);
    SameRecords(rs, SortByStart(rs), 0, 0, 0);
    SameLength(rs, SortByStart(rs));
  }

  lemma {:induction false} SortLength(rs: seq<Range>)
    ensures |SortByStart(rs)| == |rs|
  {
    SortByStartSorts(rs);
    SameLength(rs, SortByStart(rs));
  }

  lemma SortBegin(rs: seq<Range>)
    ensures SortedTo(rs, rs, 1)
  {
    if |rs| > 0 {
      var first := rs[..1];
      assert first == [rs[0]] && first[..0] == [];
      assert SortByStart(first) == Placed(SortByStart(first[..0]), rs[0]);
      assert rs == first + rs[1..];
    }
  }

  /** Placing record i among the sorted ones before it sorts one more. */
  lemma SortNext(now: seq<Range>, rs: seq<Range>, i: nat)
    requires SortedTo(now, rs, i) && i < |rs|
    ensures |now| == |rs| && SortedTo(Placed(now[..i], now[i]) + now[i + 1..], rs, i + 1)
  {
    var s, up := SortByStart(rs[..i]), rs[..i + 1];
    SortLength(rs[..i]);
    assert now[..i] == s && now[i] == rs[i] && now[i + 1..] == rs[i + 1..];
    assert up[..i] == rs[..i] && up[i] == rs[i];
    assert SortByStart(up) == Placed(SortByStart(up[..i]), up[i]);
  }

  lemma SortEnd(now: seq<Range>, rs: seq<Range>, i: nat)
    requires SortedTo(now, rs, i) && i >= |rs| && (i > |rs| ==> rs == [])
    ensures now == SortByStart(rs)
  {
    assert i == |rs| ==> rs[..i] == rs && rs[i..] == [];
    assert i == |rs| ==> SortByStart(rs) + [] == SortByStart(rs);
  }

  /** The records with the block of n bytes at r behind them, if there is one. */
  function Recorded(rs: seq<Range>, r: nat, n: nat): seq<Range> {
    if r == 0 then rs else rs + [Range(r, r + n)]
  }

  /** What the scan gives once the records are sorted. */
  function FirstFree(rs: seq<Range>, memBase: nat, memEnd: nat, n: nat): nat {
    Scan(SortByStart(rs), 0, memBase, memEnd, n)
  }

  lemma FirstFreeAligned(rs: seq<Range>, memBase: nat, memEnd: nat, n: nat)
    ensures FirstFree(rs, memBase, memEnd, n) % PAGE_SIZE == 0
  {
    ScanAligned(SortByStart(rs), 0, memBase, memEnd, n);
  }

  lemma {:induction false} ScanAligned(rs: seq<Range>, i: nat, cursor: nat, memEnd: nat, n: nat)
    requires i <= |rs|
    ensures Scan(rs, i, cursor, memEnd, n) % PAGE_SIZE == 0
    decreases |rs| - i
  {
    if i < |rs| {
      ScanAligned(rs, i + 1, rs[i].end, memEnd, n);
    }
  }

  class Allocator {
    const memBase: nat
    const memEnd: nat
    const reserves: array<Range>
    var count: nat

    ghost predicate Valid()
      reads this, reserves
    {
      && memBase % PAGE_SIZE == 0 && memBase <= memEnd <= WORD - PAGE_SIZE
      && reserves.Length == MAX_RESERVES && count <= MAX_RESERVES
      && WithinMemory(Records(), memBase, memEnd)
    }

    ghost function Records(): seq<Range>
      requires count <= reserves.Length
      reads this, reserves
    {
      reserves[..count]
    }

    constructor (memBase: nat, memSize: nat)
      requires memBase % PAGE_SIZE == 0 && memBase + memSize <= WORD - PAGE_SIZE
      ensures Valid() && fresh(reserves)
      ensures this.memBase == memBase && this.memEnd == memBase + memSize && Records() == []
    {
      this.memBase := memBase;
      this.memEnd := memBase + memSize;
      this.reserves := new Range[MAX_RESERVES](_ => Range(0, 0));
      this.count := 0;
    }

    method Reserve(start: nat, stop: nat)
      requires Valid() && start < WORD && stop < WORD
      modifies this, reserves
      ensures Valid()
      ensures var lo := if RoundDown(start) < memBase then memBase else RoundDown(start);
              var hi := if RoundUp(stop) > memEnd then memEnd else RoundUp(stop);
              Records() == old(Records()) + if old(count) < MAX_RESERVES && lo < hi then [Range(lo, hi)] else []
    {
      if count >= MAX_RESERVES {
        return;
      }
      var lo, hi := RoundDown(start), RoundUp(stop);
      if lo < memBase {
        lo := memBase;
      }
      if hi > memEnd {
        hi := memEnd;
      }
      if lo >= hi {
        return;
      }
      Append(Range(lo, hi));
    }

    method SortReserves()
      requires count <= reserves.Length
      modifies reserves
      ensures Records() == SortByStart(old(Records()))
    {
      ghost var rs := Records();
      SortBegin(rs);
      var i := 1;
      while i < count
        invariant 1 <= i && (i <= count || i == 1)
        invariant SortedTo(Records(), rs, i)
      {
        SortNext(Records(), rs, i);
        InsertNext(i);
        i := i + 1;
      }
      SortEnd(Records(), rs, i);
    }

    /** One round of the insertion sort: move record i down to its place among the first i. */
    method InsertNext(i: nat)
      requires 0 < i < count <= reserves.Length
      modifies reserves
      ensures Records() == Placed(old(Records())[..i], old(Records())[i]) + old(Records())[i + 1..]
    {
      var key := reserves[i];
      var j := ShiftDown(i);
      reserves[j] := key;
      ShiftedIsPlaced(old(Records()), Records(), i, j);
    }

    /** Shift the records that start after record i up by one; the place left for record i is h. */
    method ShiftDown(i: nat) returns (h: nat)
      requires 0 < i < reserves.Length
      modifies reserves
      ensures h <= i
      ensures h > 0 ==> reserves[h - 1].start <= old(reserves[i]).start
      ensures forall k :: 0 <= k < h ==> reserves[k] == old(reserves[k])
      ensures forall k :: h < k <= i ==>
                reserves[k] == old(reserves[k - 1]) && old(reserves[i]).start < reserves[k].start
      ensures forall k :: i < k < reserves.Length ==> reserves[k] == old(reserves[k])
    {
      var key := reserves[i];
      h := i;
      while h > 0 && reserves[h - 1].start > key.start
        invariant h <= i
        invariant forall k :: 0 <= k < h ==> reserves[k] == old(reserves[k])
        invariant forall k :: h < k <= i ==> reserves[k] == old(reserves[k - 1]) && key.start < reserves[k].start
        invariant forall k :: i < k < reserves.Length ==> reserves[k] == old(reserves[k])
      {
        reserves[h] := reserves[h - 1];
        h := h - 1;
      }
    }

    method FindFirstFree(size: nat) returns (r: nat)
      requires count <= reserves.Length
      ensures r == Scan(Records(), 0, memBase, memEnd, size)
    {
      var cursor: nat := memBase;
      var i := 0;
      while i <= count
        invariant 0 <= i <= count
        invariant Scan(Records(), i, cursor, memEnd, size) == Scan(Records(), 0, memBase, memEnd, size)
        decreases count + 1 - i
      {
        var windowEnd := if i < count then reserves[i].start else memEnd;
        cursor := RoundUp(cursor);
        if (cursor + size) % WORD <= windowEnd {
          return cursor;
        }
        if i == count {
          return 0;
        }
        cursor := reserves[i].end;
        i := i + 1;
      }
      assert false;
    }

    /** The table has a slot for the record of the block, if the scan finds one: the code does not look. */
    ghost predicate SlotLeft(n: nat)
      reads this, reserves
      requires count <= reserves.Length
    {
      count < reserves.Length || FirstFree(Records(), memBase, memEnd, n) == 0
    }

    /**
     * buddy_startup_alloc: what the scan of the sorted records gives. On non-empty records that is the lowest
     * page-aligned gap that fits, or 0 when there is none, iff no earlier record reaches into the first window
     * with room; records in staircase shape always meet that. The block is recorded and the shape kept.
     */
    method Alloc(size: nat) returns (r: nat)
      requires Valid() && size <= WORD - PAGE_SIZE && RoundUp(memEnd) + RoundUp(size) < WORD
      requires SlotLeft(RoundUp(size))
      modifies this, reserves
      ensures Valid() && r == FirstFree(old(Records()), memBase, memEnd, RoundUp(size))
      ensures Records() == Recorded(SortByStart(old(Records())), r, RoundUp(size))
      ensures NonEmpty(old(Records())) ==>
                (LowestGap(old(Records()), memBase, memEnd, RoundUp(size), r)
                 <==> FirstRoomClear(SortByStart(old(Records())), memBase, memEnd, RoundUp(size)))
      ensures Staircase(old(Records())) ==>
                && LowestGap(old(Records()), memBase, memEnd, RoundUp(size), r)
                && (size > 0 ==> Staircase(Records()))
    {
      if size > 0 {
        RoundUpPositive(size);
      }
      r := AllocPages(RoundUp(size));
    }

    /** buddy_startup_alloc behind the rounding of the size. */
    method AllocPages(n: nat) returns (r: nat)
      requires Valid() && RoundUp(memEnd) + n < WORD && SlotLeft(n)
      modifies this, reserves
      ensures Valid() && r == FirstFree(old(Records()), memBase, memEnd, n)
      ensures Records() == Recorded(SortByStart(old(Records())), r, n)
      ensures NonEmpty(old(Records())) ==>
                (LowestGap(old(Records()), memBase, memEnd, n, r)
                 <==> FirstRoomClear(SortByStart(old(Records())), memBase, memEnd, n))
      ensures Staircase(old(Records())) ==>
                LowestGap(old(Records()), memBase, memEnd, n, r) && (n > 0 ==> Staircase(Records()))
    {
      hide SortByStart, Scan, FirstRoomClear, LowestGap;
      ghost var rs := Records();
      SortReserves();
      r := FindFirstFree(n);
      AllocExact(rs, memBase, memEnd, n);
      if r == 0 {
        return;
      }
      AppendRecord(SortByStart(rs), r, n, memBase, memEnd);
      Append(Range(r, r + n));
    }

    method Append(r: Range)
      requires count < reserves.Length
      modifies `count, reserves
      ensures count <= reserves.Length && count == old(count) + 1 && Records() == old(Records()) + [r]
    {
      reserves[count] := r;
      count := count + 1;
    }
  }

  /** r is the lowest address that fits, or 0 when there is none or when the lowest is 0 itself. */
  ghost predicate LowestGap(rs: seq<Range>, memBase: nat, memEnd: nat, size: nat, r: nat) {
    && (r != 0 ==> Fits(rs, memBase, memEnd, size, r) && forall a: nat :: Fits(rs, memBase, memEnd, size, a) ==> r <= a)
    && (r == 0 <==> Fits(rs, memBase, memEnd, size, 0) || !exists a: nat :: Fits(rs, memBase, memEnd, size, a))
  }

  ghost predicate NonEmpty(rs: seq<Range>) {
    forall r :: r in rs ==> r.start < r.end
  }

  /** What the scan of the sorted records gives, in terms of the records as they were. */
  lemma AllocExact(rs: seq<Range>, memBase: nat, memEnd: nat, n: nat)
    requires WithinMemory(rs, memBase, memEnd)
    requires memBase <= memEnd <= WORD - PAGE_SIZE && RoundUp(memEnd) + n < WORD
    ensures var ss := SortByStart(rs);
            var r := FirstFree(rs, memBase, memEnd, n);
            && WithinMemory(ss, memBase, memEnd) && |ss| == |rs| && (r != 0 ==> memBase <= r && r + n <= memEnd)
            && (NonEmpty(rs) ==>
                  (LowestGap(rs, memBase, memEnd, n, r) <==> FirstRoomClear(ss, memBase, memEnd, n)))
            && (Staircase(rs) ==> Staircase(ss) && LowestGap(rs, memBase, memEnd, n, r))
            && (Staircase(rs) && r != 0 ==> Fits(ss, memBase, memEnd, n, r))
  {
    hide SortByStart, Scan, FirstRoomClear, Fits;
    var ss := SortByStart(rs);
    SortByStartSorts(rs);
    SameRecords(rs, ss, memBase, memEnd, n);
    SameLength(rs, ss);
    ScanInMemory(ss, 0, memBase, memBase, memEnd, n);
    if NonEmpty(rs) {
      assert forall k :: 0 <= k < |ss| ==> ss[k] in ss;
      FirstFitIff(ss, memBase, memEnd, n);
      if Staircase(rs) {
        ScanIsFirstFit(ss, memBase, memEnd, n);
      }
    }
  }

  lemma SameLength(rs: seq<Range>, ss: seq<Range>)
    requires multiset(rs) == multiset(ss)
    ensures |rs| == |ss|
  {
    assert |rs| == |multiset(rs)| && |ss| == |multiset(ss)|;
  }

  lemma AppendRecord(ss: seq<Range>, r: nat, n: nat, memBase: nat, memEnd: nat)
    requires memBase <= r && r + n <= memEnd && WithinMemory(ss, memBase, memEnd)
    ensures WithinMemory(ss + [Range(r, r + n)], memBase, memEnd)
    ensures n > 0 && Staircase(ss) && Fits(ss, memBase, memEnd, n, r) ==> Staircase(ss + [Range(r, r + n)])
  {
  }

  /** Whatever the shape of the records, a block found lies in memory. */
  lemma {:induction false} ScanInMemory(rs: seq<Range>, i: nat, cursor: nat, memBase: nat, memEnd: nat, size: nat)
    requires i <= |rs| && WithinMemory(rs, memBase, memEnd)
    requires memEnd <= WORD - PAGE_SIZE && RoundUp(memEnd) + size < WORD
    requires memBase <= cursor <= memEnd
    ensures var r := Scan(rs, i, cursor, memEnd, size);
            r != 0 ==> memBase <= r && r + size <= memEnd
    decreases |rs| - i
  {
    NoWrap(cursor, memEnd, size);
    if i < |rs| {
      assert rs[i] in rs;
      ScanInMemory(rs, i + 1, rs[i].end, memBase, memEnd, size);
    }
  }

  lemma RoundUpMonotone(x: nat, y: nat)
    requires x <= y <= WORD - PAGE_SIZE
    ensures x <= RoundUp(x) <= RoundUp(y) && RoundUp(x) < x + PAGE_SIZE && RoundUp(x) % PAGE_SIZE == 0
  {
  }

  /** The scan's sum does not wrap. */
  lemma NoWrap(cursor: nat, memEnd: nat, size: nat)
    requires cursor <= memEnd <= WORD - PAGE_SIZE && RoundUp(memEnd) + size < WORD
    ensures cursor <= RoundUp(cursor) && (RoundUp(cursor) + size) % WORD == RoundUp(cursor) + size
  {
    RoundUpMonotone(cursor, memEnd);
  }

  lemma RoundUpPositive(x: nat)
    requires 0 < x <= WORD - PAGE_SIZE
    ensures RoundUp(x) > 0
  {
  }

  lemma SameRecords(rs: seq<Range>, ss: seq<Range>, memBase: nat, memEnd: nat, n: nat)
    requires multiset(rs) == multiset(ss)
    ensures forall r :: r in rs <==> r in ss
    ensures Staircase(rs) <==> Staircase(ss)
    ensures WithinMemory(rs, memBase, memEnd) <==> WithinMemory(ss, memBase, memEnd)
    ensures forall a: nat :: Fits(rs, memBase, memEnd, n, a) <==> Fits(ss, memBase, memEnd, n, a)
  {
    forall r ensures r in rs <==> r in ss {
      assert r in rs <==> r in multiset(rs);
      assert r in ss <==> r in multiset(ss);
    }
  }
}
