/** Aligned power-of-two blocks of pages and the maximal decomposition of a set of pages. */
module Blocks {
  import opened Arith

  const MAX_ORDER: nat := 16

  /** Every page of the 2^k pages starting at i is in f. */
  predicate Run(f: set<nat>, i: int, k: nat) {
    forall p :: i <= p < i + Pow2(k) ==> p in f
  }

  /** The pages from lo up to but not including hi. */
  function Span(lo: nat, hi: nat): (r: set<nat>)
    ensures forall p: nat :: p in r <==> lo <= p < hi
  {
    set p: nat {:trigger IsPage(p)} | lo <= p < hi && IsPage(p)
  }

  predicate IsPage(p: nat) { true }  // a term for the comprehension to be triggered on

  function Pages(i: nat, k: nat): set<nat> {
    Span(i, i + Pow2(k))
  }

  /** An aligned block of an order the allocator manages, all of whose pages are in f. */
  predicate FreeBlock(f: set<nat>, i: nat, k: nat) {
    k <= MAX_ORDER && Aligned(i, k) && Run(f, i, k)
  }

  /** Some free block has order k. */
  ghost predicate HasBlock(f: set<nat>, k: nat) {
    exists i: nat :: FreeBlock(f, i, k)
  }

  /** A free block whose enclosing block of the next order is not entirely free. */
  predicate Maximal(f: set<nat>, i: nat, k: nat) {
    FreeBlock(f, i, k) && (k < MAX_ORDER ==> !Run(f, ParentOf(i, k), k + 1))
  }

  predicate Inside(i: nat, k: nat, j: nat, m: nat) {
    j <= i && i + Pow2(k) <= j + Pow2(m)
  }

  predicate Overlap(i: nat, k: nat, j: nat, m: nat) {
    i < j + Pow2(m) && j < i + Pow2(k)
  }

  lemma Nested(i: nat, k: nat, j: nat, m: nat)
    requires Aligned(i, k) && Aligned(j, m) && Overlap(i, k, j, m)
    ensures k <= m ==> Inside(i, k, j, m)
    ensures k >= m ==> Inside(j, m, i, k)
    ensures k == m ==> i == j
  {
    if k <= m {
      Laminar(i, k, j, m);
    }
    if k >= m {
      Laminar(j, m, i, k);
    }
  }

  /** A block and its enclosing block. */
  lemma ParentInside(i: nat, k: nat)
    requires Aligned(i, k)
    ensures 0 <= ParentOf(i, k) && Inside(i, k, ParentOf(i, k), k + 1)
    ensures 0 <= BuddyOf(i, k) && Inside(BuddyOf(i, k), k, ParentOf(i, k), k + 1)
    ensures Pages(ParentOf(i, k), k + 1) == Pages(i, k) + Pages(BuddyOf(i, k), k)
    ensures Pages(i, k) !! Pages(BuddyOf(i, k), k)
  {
    Family(i, k);
  }

  /** A strictly larger aligned block that meets (i, k) contains the whole parent of (i, k). */
  lemma LargerContainsParent(i: nat, k: nat, j: nat, m: nat)
    requires Aligned(i, k) && Aligned(j, m) && Overlap(i, k, j, m) && k < m
    ensures 0 <= ParentOf(i, k) && Inside(ParentOf(i, k), k + 1, j, m)
  {
    Family(i, k);
    ParentInside(i, k);
    Nested(ParentOf(i, k), k + 1, j, m);
  }

  lemma RunSubset(f: set<nat>, g: set<nat>, i: int, k: nat)
    requires f <= g
    ensures Run(f, i, k) ==> Run(g, i, k)
  {
    assert forall p :: p in f ==> p in g;
  }

  lemma RunInside(f: set<nat>, i: nat, k: nat, j: nat, m: nat)
    requires Inside(i, k, j, m)
    ensures Run(f, j, m) ==> Run(f, i, k)
  {
  }

  /** A parent is free exactly when both of its halves are. */
  lemma ParentRun(f: set<nat>, i: nat, k: nat)
    requires Aligned(i, k)
    ensures Run(f, ParentOf(i, k), k + 1) <==> Run(f, i, k) && Run(f, BuddyOf(i, k), k)
  {
    ParentInside(i, k);
    if Run(f, i, k) && Run(f, BuddyOf(i, k), k) {
      forall p | ParentOf(i, k) <= p < ParentOf(i, k) + Pow2(k + 1) ensures p in f {
        assert p in Pages(i, k) + Pages(BuddyOf(i, k), k);
      }
    }
  }

  /** Adding (b, o) does not change whether a run that misses it is free. */
  lemma RunApart(g: set<nat>, b: nat, o: nat, j: nat, m: nat)
    requires !Overlap(b, o, j, m)
    ensures Run(g + Pages(b, o), j, m) <==> Run(g, j, m)
  {
    forall p: nat | j <= p < j + Pow2(m) ensures p in g + Pages(b, o) <==> p in g {
      assert p !in Pages(b, o);
    }
  }

  /** If a larger run around (b, o) is free once (b, o) is added, the buddy was free before. */
  lemma BuddyWasFree(g: set<nat>, b: nat, o: nat, j: nat, m: nat)
    requires Aligned(b, o) && Aligned(j, m) && Overlap(b, o, j, m) && o < m
    ensures Run(g + Pages(b, o), j, m) ==> Run(g, BuddyOf(b, o), o)
  {
    LargerContainsParent(b, o, j, m);
    ParentInside(b, o);
    var c := BuddyOf(b, o);
    RunInside(g + Pages(b, o), c, o, j, m);
    RunApart(g, b, o, c, o);
  }

  /** A run inside (b, o) is free once (b, o) is added. */
  lemma SmallerParentIsFree(g: set<nat>, b: nat, o: nat, j: nat, m: nat)
    requires Aligned(b, o) && Aligned(j, m) && Overlap(b, o, j, m) && m < o
    ensures Run(g + Pages(b, o), ParentOf(j, m), m + 1)
  {
    LargerContainsParent(j, m, b, o);
    RunInside(g + Pages(b, o), ParentOf(j, m), m + 1, b, o);
  }

  /**
   * Adding an aligned block whose buddy is not entirely free adds exactly that block to the maximal
   * blocks. Every step of splitting and of merging is an instance, forwards or backwards.
   */
  lemma AddBlock(g: set<nat>, b: nat, o: nat, j: nat, m: nat)
    requires o <= MAX_ORDER && Aligned(b, o) && Pages(b, o) !! g
    requires o < MAX_ORDER ==> !Run(g, BuddyOf(b, o), o)
    ensures Maximal(g + Pages(b, o), j, m) <==> Maximal(g, j, m) || (j == b && m == o)
  {
    if Maximal(g + Pages(b, o), j, m) {
      AddedIsOldOrNew(g, b, o, j, m);
    }
    if Maximal(g, j, m) {
      OldStaysMaximal(g, b, o, j, m);
    }
    if j == b && m == o {
      NewIsMaximal(g, b, o);
    }
  }

  lemma AddedIsOldOrNew(g: set<nat>, b: nat, o: nat, j: nat, m: nat)
    requires o <= MAX_ORDER && Aligned(b, o) && Pages(b, o) !! g
    requires o < MAX_ORDER ==> !Run(g, BuddyOf(b, o), o)
    requires Maximal(g + Pages(b, o), j, m)
    ensures Maximal(g, j, m) || (j == b && m == o)
  {
    if !Overlap(b, o, j, m) {
      RunApart(g, b, o, j, m);
    } else if m < o {
      SmallerParentIsFree(g, b, o, j, m);
    } else if m == o {
      Nested(j, m, b, o);
    } else {
      BuddyWasFree(g, b, o, j, m);
    }
  }

  lemma OldStaysMaximal(g: set<nat>, b: nat, o: nat, j: nat, m: nat)
    requires o <= MAX_ORDER && Aligned(b, o) && Pages(b, o) !! g
    requires o < MAX_ORDER ==> !Run(g, BuddyOf(b, o), o)
    requires Maximal(g, j, m)
    ensures Maximal(g + Pages(b, o), j, m)
  {
    if m < MAX_ORDER {
      ParentStaysBusy(g, b, o, j, m);
    }
  }

  lemma ParentStaysBusy(g: set<nat>, b: nat, o: nat, j: nat, m: nat)
    requires o <= MAX_ORDER && Aligned(b, o) && Pages(b, o) !! g
    requires o < MAX_ORDER ==> !Run(g, BuddyOf(b, o), o)
    requires Maximal(g, j, m) && m < MAX_ORDER
    ensures !Run(g + Pages(b, o), ParentOf(j, m), m + 1)
  {
    hide Aligned, BuddyOf, ParentOf;
    Family(j, m);
    ParentInside(j, m);
    var q := ParentOf(j, m);
    if !Overlap(b, o, q, m + 1) {
      RunApart(g, b, o, q, m + 1);
    } else if o <= m {
      BuddyWasFree(g, b, o, q, m + 1);
    } else {
      assert j in g;
      Nested(q, m + 1, b, o);
    }
  }

  lemma NewIsMaximal(g: set<nat>, b: nat, o: nat)
    requires o <= MAX_ORDER && Aligned(b, o) && Pages(b, o) !! g
    requires o < MAX_ORDER ==> !Run(g, BuddyOf(b, o), o)
    ensures Maximal(g + Pages(b, o), b, o)
  {
    Family(b, o);
    ParentInside(b, o);
    BuddyWasFree(g, b, o, ParentOf(b, o), o + 1);
  }

  /** Taking a maximal block out takes exactly that block out of the maximal blocks. */
  lemma RemoveBlock(f: set<nat>, b: nat, o: nat, j: nat, m: nat)
    requires Maximal(f, b, o)
    ensures Maximal(f - Pages(b, o), j, m) <==> Maximal(f, j, m) && !(j == b && m == o)
  {
    var g := f - Pages(b, o);
    assert g + Pages(b, o) == f;
    ParentRun(f, b, o);
    assert Run(g, BuddyOf(b, o), o) ==> Run(f, BuddyOf(b, o), o);
    AddBlock(g, b, o, j, m);
    assert b !in g;
  }

  /** Every free block lies inside a maximal one. */
  lemma {:induction false} MaximalAbove(f: set<nat>, i: nat, k: nat) returns (j: nat, m: nat)
    requires FreeBlock(f, i, k)
    ensures Maximal(f, j, m) && k <= m && Inside(i, k, j, m)
    decreases MAX_ORDER - k
  {
    if k < MAX_ORDER && Run(f, ParentOf(i, k), k + 1) {
      Family(i, k);
      ParentInside(i, k);
      j, m := MaximalAbove(f, ParentOf(i, k), k + 1);
    } else {
      j, m := i, k;
    }
  }

  /** Two maximal blocks that share a page are the same block. */
  lemma MaximalUnique(f: set<nat>, i: nat, k: nat, j: nat, m: nat)
    requires Maximal(f, i, k) && Maximal(f, j, m) && Overlap(i, k, j, m)
    ensures i == j && k == m
  {
    if k < m {
      ParentFreeUnderLarger(f, i, k, j, m);
    } else if m < k {
      ParentFreeUnderLarger(f, j, m, i, k);
    } else {
      Nested(i, k, j, m);
    }
  }

  lemma ParentFreeUnderLarger(f: set<nat>, i: nat, k: nat, j: nat, m: nat)
    requires Aligned(i, k) && FreeBlock(f, j, m) && Overlap(i, k, j, m) && k < m
    ensures k < MAX_ORDER && Run(f, ParentOf(i, k), k + 1)
  {
    LargerContainsParent(i, k, j, m);
    RunInside(f, ParentOf(i, k), k + 1, j, m);
  }

  /** Not contained in any other free block: the order-free reading of Maximal. */
  ghost predicate ContainedInNoOther(f: set<nat>, i: nat, k: nat) {
    FreeBlock(f, i, k) && forall j: nat, m: nat :: FreeBlock(f, j, m) && Inside(i, k, j, m) ==> j == i && m == k
  }

  lemma MaximalMeansMaximal(f: set<nat>, i: nat, k: nat)
    ensures Maximal(f, i, k) <==> ContainedInNoOther(f, i, k)
  {
    if Maximal(f, i, k) {
      forall j: nat, m: nat | FreeBlock(f, j, m) && Inside(i, k, j, m) ensures j == i && m == k {
        OnlyItself(f, i, k, j, m);
      }
    }
    if FreeBlock(f, i, k) && k < MAX_ORDER {
      Family(i, k);
      ParentInside(i, k);
      assert FreeBlock(f, ParentOf(i, k), k + 1) <==> Run(f, ParentOf(i, k), k + 1);
    }
  }

  lemma OnlyItself(f: set<nat>, i: nat, k: nat, j: nat, m: nat)
    requires Maximal(f, i, k) && FreeBlock(f, j, m) && Inside(i, k, j, m)
    ensures j == i && m == k
  {
    if k < m {
      ParentFreeUnderLarger(f, i, k, j, m);
    } else {
      Pow2Monotone(m, k);
      Nested(i, k, j, m);
      SameSize(m, k);
    }
  }

  lemma SameSize(m: nat, k: nat)
    requires m <= k
    ensures Pow2(m) >= Pow2(k) ==> m == k
  {
    if m < k {
      Pow2Monotone(m + 1, k);
    }
  }

  /**
   * The maximal blocks partition f: each page of f lies in one and only one of them, and a block
   * below the top order never has an equally large free buddy.
   */
  lemma MaximalPartition(f: set<nat>, p: nat)
    requires p in f
    ensures exists j: nat, m: nat ::
              && Maximal(f, j, m) && p in Pages(j, m)
              && forall i: nat, k: nat :: Maximal(f, i, k) && p in Pages(i, k) ==> i == j && k == m
  {
    assert Pow2(0) == 1;
    assert FreeBlock(f, p, 0);
    var j, m := MaximalAbove(f, p, 0);
    forall i: nat, k: nat | Maximal(f, i, k) && p in Pages(i, k) ensures i == j && k == m {
      MaximalUnique(f, i, k, j, m);
    }
    assert Maximal(f, j, m) && p in Pages(j, m);
  }

  lemma NoFreeBuddies(f: set<nat>, i: nat, k: nat)
    requires Maximal(f, i, k) && k < MAX_ORDER
    ensures BuddyOf(i, k) >= 0 && !Maximal(f, BuddyOf(i, k), k)
  {
    Family(i, k);
    ParentRun(f, i, k);
  }
}
