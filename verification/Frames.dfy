/** The frame array's encoding of a page's status, and its agreement with the free lists. */
module Frames {
  import opened Arith
  import opened Blocks
  import opened Sequences

  const PAGE_SIZE: nat := 4096
  const FREE_PART: int := -1  // free, inside a larger free block
  const RESERVED: int := -2   // never handed out

  /** Entries that denote a free page: the head of a block of that order, or part of one. */
  predicate FreeCode(c: int) {
    FREE_PART <= c <= MAX_ORDER
  }

  // ---- allocation tags: (int)((1 << 30) | (idx << 8) | order) ----

  function SetBit22(x: nat): nat {
    if (x / 0x40_0000) % 2 == 1 then x else x + 0x40_0000
  }

  function ToInt32(x: nat): int {
    var w := x % 0x1_0000_0000;
    if w < 0x8000_0000 then w else w - 0x1_0000_0000
  }

  /** The tag of the block at idx. Index bits above bit 23 are lost by the cast to a 32-bit int. */
  function AllocTag(idx: nat, order: nat): int
    requires order < 256
  {
    ToInt32(SetBit22(idx) * 256 + order)
  }

  /** val & 0xFF, which for a two's complement int is the Euclidean remainder. */
  function TagOrder(val: int): nat {
    val % 256
  }

  /** (val >> 8) & 0x3FFFFF, with an arithmetic shift. */
  function TagIndex(val: int): nat {
    (val / 256) % 0x40_0000
  }

  /** The 32-bit word under the tag: the low 24 index bits with bit 22 set, over the order byte. */
  lemma TagWord(idx: nat, order: nat)
    requires order < 256
    ensures (SetBit22(idx) * 256 + order) % 0x1_0000_0000 == (SetBit22(idx) % 0x100_0000) * 256 + order
  {
    var x := SetBit22(idx);
    var q, r := x / 0x100_0000, x % 0x100_0000;
    assert x == q * 0x100_0000 + r;
    DivUnique(x * 256 + order, 0x1_0000_0000, q, r * 256 + order);
  }

  lemma TagHighBits(idx: nat)
    ensures var x := SetBit22(idx) % 0x100_0000;
            && (0x40_0000 <= x < 0x80_0000 || 0xC0_0000 <= x)
            && x % 0x40_0000 == idx % 0x40_0000
  {
    hide SetBit22;
    var a, b, r := TagParts(idx);
    TagQuarter(a, b, r);
  }

  lemma TagParts(idx: nat) returns (a: nat, b: nat, r: nat)
    ensures SetBit22(idx) == (4 * a + b) * 0x40_0000 + r
    ensures (b == 1 || b == 3) && r == idx % 0x40_0000
  {
    var q := idx / 0x40_0000;
    var odd := if q % 2 == 1 then q else q + 1;
    a, b, r := odd / 4, odd % 4, idx % 0x40_0000;
  }

  lemma TagQuarter(a: nat, b: nat, r: nat)
    requires b < 4 && r < 0x40_0000
    ensures ((4 * a + b) * 0x40_0000 + r) % 0x100_0000 == b * 0x40_0000 + r && (b * 0x40_0000 + r) % 0x40_0000 == r
  {
    DivUnique((4 * a + b) * 0x40_0000 + r, 0x100_0000, a, b * 0x40_0000 + r);
    DivUnique(b * 0x40_0000 + r, 0x40_0000, b, r);
  }

  lemma TagValue(idx: nat, order: nat)
    requires order < 256
    ensures var x := SetBit22(idx) % 0x100_0000;
            AllocTag(idx, order) == if x < 0x80_0000 then x * 256 + order else (x - 0x100_0000) * 256 + order
  {
    TagWord(idx, order);
  }

  lemma TagFields(y: int, order: nat)
    requires order < 256
    ensures (y * 256 + order) % 256 == order && (y * 256 + order) / 256 == y
  {
  }

  /**
   * A tag never reads as a free page or as RESERVED, whatever the index, and always gives its order
   * back. It gives its index back exactly when the index fits the 22 bits left for it.
   */
  lemma TagSound(idx: nat, order: nat)
    requires order <= MAX_ORDER
    ensures !FreeCode(AllocTag(idx, order)) && AllocTag(idx, order) != RESERVED
    ensures TagOrder(AllocTag(idx, order)) == order
    ensures TagIndex(AllocTag(idx, order)) == idx <==> idx < 0x40_0000
  {
    var x := SetBit22(idx) % 0x100_0000;
    var y := if x < 0x80_0000 then x else x - 0x100_0000;
    TagHighBits(idx);
    TagValue(idx, order);
    TagFields(y, order);
    assert y % 0x40_0000 == idx % 0x40_0000;
  }

  // ---- agreement of the frame array and the lists with a free set ----

  /**
   * Outside `hole`, an entry is a free code exactly on the pages of g, and is an order exactly at the
   * head of a maximal block of that order. Inside `hole` entries may be stale.
   */
  ghost predicate FrameAgrees(frame: seq<int>, g: set<nat>, hole: set<nat>) {
    && (forall p :: p in g ==> p < |frame| && p !in hole)
    && (forall p: nat :: p < |frame| && p !in hole ==> (p in g <==> FreeCode(frame[p])))
    && (forall p: nat, k: nat :: p < |frame| && p !in hole && k <= MAX_ORDER ==> (frame[p] == k <==> Maximal(g, p, k)))
  }

  /** List k holds the heads of the maximal blocks of order k, each once. */
  ghost predicate ListsAgree(lists: seq<seq<nat>>, g: set<nat>) {
    && |lists| == MAX_ORDER + 1
    && (forall k: nat :: k <= MAX_ORDER ==> NoDup(lists[k]))
    && (forall k: nat, i: nat :: k <= MAX_ORDER ==> (i in lists[k] <==> Maximal(g, i, k)))
  }

  ghost predicate Agrees(frame: seq<int>, lists: seq<seq<nat>>, g: set<nat>, hole: set<nat>) {
    FrameAgrees(frame, g, hole) && ListsAgree(lists, g)
  }

  /** frame' is frame with the block (b, o) entered as one free block. */
  ghost predicate Pushed(frame: seq<int>, frame': seq<int>, b: nat, o: nat) {
    && |frame'| == |frame| && b + Pow2(o) <= |frame|
    && frame'[b] == o
    && (forall p :: b < p < b + Pow2(o) ==> frame'[p] == FREE_PART)
    && (forall p :: 0 <= p < |frame| && !(b <= p < b + Pow2(o)) ==> frame'[p] == frame[p])
  }

  /** Entering a block of the hole whose buddy is not free keeps the agreement. */
  lemma PushAgrees(frame: seq<int>, frame': seq<int>, lists: seq<seq<nat>>, g: set<nat>, hole: set<nat>, b: nat, o: nat)
    requires Agrees(frame, lists, g, hole) && Pushed(frame, frame', b, o)
    requires o <= MAX_ORDER && Aligned(b, o) && Pages(b, o) <= hole
    requires o < MAX_ORDER ==> !Run(g, BuddyOf(b, o), o)
    ensures Agrees(frame', lists[o := [b] + lists[o]], g + Pages(b, o), hole - Pages(b, o))
  {
    var f := g + Pages(b, o);
    forall j: nat, m: nat ensures Maximal(f, j, m) <==> Maximal(g, j, m) || (j == b && m == o) {
      AddBlock(g, b, o, j, m);
    }
    PushFrame(frame, frame', g, hole, b, o);
    PushLists(lists, g, f, b, o);
  }

  lemma PushFrame(frame: seq<int>, frame': seq<int>, g: set<nat>, hole: set<nat>, b: nat, o: nat)
    requires FrameAgrees(frame, g, hole) && Pushed(frame, frame', b, o)
    requires o <= MAX_ORDER && Pages(b, o) <= hole
    requires forall j: nat, m: nat :: Maximal(g + Pages(b, o), j, m) <==> Maximal(g, j, m) || (j == b && m == o)
    ensures FrameAgrees(frame', g + Pages(b, o), hole - Pages(b, o))
  {
    var f := g + Pages(b, o);
    forall p: nat, k: nat | p < |frame| && p !in hole - Pages(b, o) && k <= MAX_ORDER
      ensures frame'[p] == k <==> Maximal(f, p, k)
    {
      if p in Pages(b, o) {
        assert p !in g;
        NotHead(g, p, k);
      } else {
        assert p !in hole;
      }
    }
  }

  lemma NotHead(g: set<nat>, p: nat, k: nat)
    requires p !in g
    ensures !Maximal(g, p, k)
  {
    assert p < p + Pow2(k);
  }

  lemma PushLists(lists: seq<seq<nat>>, g: set<nat>, f: set<nat>, b: nat, o: nat)
    requires ListsAgree(lists, g) && o <= MAX_ORDER && b !in g
    requires forall j: nat, m: nat :: Maximal(f, j, m) <==> Maximal(g, j, m) || (j == b && m == o)
    ensures ListsAgree(lists[o := [b] + lists[o]], f)
  {
    NotHead(g, b, o);
    assert b !in lists[o];
  }

  /** Taking a listed block off its list moves its pages into the hole. */
  lemma PopAgrees(frame: seq<int>, lists: seq<seq<nat>>, g: set<nat>, hole: set<nat>, k: nat, x: nat)
    requires Agrees(frame, lists, g, hole) && k <= MAX_ORDER && x < |lists[k]|
    ensures Maximal(g, lists[k][x], k) && Pages(lists[k][x], k) <= g
    ensures Agrees(frame, lists[k := Without(lists[k], x)], g - Pages(lists[k][x], k), hole + Pages(lists[k][x], k))
  {
    var b := lists[k][x];
    assert b in lists[k];
    forall j: nat, m: nat ensures Maximal(g - Pages(b, k), j, m) <==> Maximal(g, j, m) && !(j == b && m == k) {
      RemoveBlock(g, b, k, j, m);
    }
    WithoutMembers(lists[k], x);
    assert b in Pages(b, k);
  }

  /** Overwriting entries of the hole changes nothing. */
  lemma HoleIsFree(frame: seq<int>, frame': seq<int>, g: set<nat>, hole: set<nat>, hole': set<nat>)
    requires FrameAgrees(frame, g, hole) && |frame'| == |frame| && hole <= hole' && hole' !! g
    requires forall p: nat :: p < |frame| && p !in hole' ==> frame'[p] == frame[p]
    ensures FrameAgrees(frame', g, hole')
  {
  }

  /** Once every entry of the hole is neither free nor stale, there is no hole. */
  lemma CloseHole(frame: seq<int>, g: set<nat>, hole: set<nat>)
    requires FrameAgrees(frame, g, hole)
    requires forall p: nat :: p < |frame| && p in hole ==> !FreeCode(frame[p])
    ensures FrameAgrees(frame, g, {})
  {
    forall p: nat, k: nat | p < |frame| && k <= MAX_ORDER ensures frame[p] == k <==> Maximal(g, p, k) {
      if p in hole {
        NotHead(g, p, k);
      }
    }
  }

  /** The free pages the frame array denotes. */
  function FreeSet(frame: seq<int>): (g: set<nat>)
    ensures forall p: nat :: p in g <==> p < |frame| && FreeCode(frame[p])
  {
    set p: nat | p < |frame| && FreeCode(frame[p])
  }

  /**
   * Canonical form: frame array and lists in agreement hold no more information than the set of free
   * pages. Two states with the same free pages list the same blocks of every order.
   */
  lemma CanonicalForm(frame: seq<int>, lists: seq<seq<nat>>, frame': seq<int>, lists': seq<seq<nat>>, g: set<nat>)
    requires Agrees(frame, lists, g, {}) && Agrees(frame', lists', g, {})
    ensures forall k: nat, i: nat :: k <= MAX_ORDER ==> (i in lists[k] <==> i in lists'[k])
    ensures forall k: nat :: k <= MAX_ORDER ==> multiset(lists[k]) == multiset(lists'[k])
    ensures g == FreeSet(frame)
  {
    forall k: nat | k <= MAX_ORDER ensures multiset(lists[k]) == multiset(lists'[k]) {
      SameMembers(lists[k], lists'[k]);
    }
  }

  lemma {:induction false} CountOne(s: seq<nat>, i: nat)
    requires NoDup(s)
    ensures multiset(s)[i] == if i in s then 1 else 0
  {
    if s != [] {
      var t := s[1..];
      assert s == [s[0]] + t;
      CountOne(t, i);
      assert multiset(s) == multiset{s[0]} + multiset(t);
      assert s[0] !in t;
    }
  }

  lemma SameMembers(s: seq<nat>, t: seq<nat>)
    requires NoDup(s) && NoDup(t) && forall i :: i in s <==> i in t
    ensures multiset(s) == multiset(t)
  {
    forall i ensures multiset(s)[i] == multiset(t)[i] {
      CountOne(s, i);
      CountOne(t, i);
    }
  }

  /** A free block of order at least t is listed exactly when an aligned free run of 2^t pages exists. */
  lemma ListedIffRun(lists: seq<seq<nat>>, g: set<nat>, t: nat)
    requires ListsAgree(lists, g) && t <= MAX_ORDER
    ensures (exists k: nat :: t <= k <= MAX_ORDER && lists[k] != []) <==> HasBlock(g, t)
  {
    if k: nat :| t <= k <= MAX_ORDER && lists[k] != [] {
      var i := lists[k][0];
      assert i in lists[k];
      AlignedDown(i, t, k);
      Pow2Monotone(t, k);
      assert FreeBlock(g, i, t);
    }
    if i: nat :| FreeBlock(g, i, t) {
      var j, m := MaximalAbove(g, i, t);
      assert j in lists[m];
    }
  }
}
