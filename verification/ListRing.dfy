/** The intrusive circular list at pointer level, acting on the sequence of its members. */
module ListRing {
  import opened Sequences

  /** A list_head embedded in a structure that carries a sort key. */
  class Node {
    var prev: Node?
    var next: Node?
    const key: int

    constructor (key: int)
      ensures this.key == key && prev == null && next == null
    {
      this.key := key;
      prev, next := null, null;
    }
  }

  /** Position i on the way round: the head at 0 and again at |s| + 1, the members in between. */
  function At(head: Node, s: seq<Node>, i: nat): Node
    requires i <= |s| + 1
  {
    if i == 0 || i == |s| + 1 then head else s[i - 1]
  }

  /** head and the members s, in that order, form one circle, linked both ways. */
  ghost predicate Ring(head: Node, s: seq<Node>)
    reads head, s
  {
    && head !in s
    && NoDup(s)
    && (forall i: nat {:trigger At(head, s, i).next} :: i <= |s| ==> At(head, s, i).next == At(head, s, i + 1))
    && (forall i: nat {:trigger At(head, s, i).prev} :: 0 < i <= |s| + 1 ==> At(head, s, i).prev == At(head, s, i - 1))
  }

  method InitHead(head: Node)
    modifies head
    ensures Ring(head, [])
  {
    head.next := head;
    head.prev := head;
  }

  /** __list_add, and the splices written out in add_task and add_timer_ticks: n goes between places k and k + 1. */
  method Link(n: Node, prev: Node, next: Node, ghost head: Node, ghost s: seq<Node>, ghost k: nat)
    requires Ring(head, s) && n != head && n !in s && k <= |s| && prev == At(head, s, k) && next == At(head, s, k + 1)
    modifies n, prev, next
    ensures Ring(head, InsertAt(s, k, n))
  {
    NewDistinct(s, k, n);
    next.prev := n;
    n.next := next;
    n.prev := prev;
    prev.next := n;
    NextLinks(head, s, k, n);
    PrevLinks(head, s, k, n);
  }

  /** Links forward all the way round the old list, but for the new member behind place k, are links of the new list. */
  lemma NextLinks(head: Node, s: seq<Node>, k: nat, n: Node)
    requires k <= |s| && At(head, s, k).next == n && n.next == At(head, s, k + 1)
    requires forall i: nat {:trigger At(head, s, i).next} :: i <= |s| && i != k ==>
             At(head, s, i).next == At(head, s, i + 1)
    ensures var t := InsertAt(s, k, n);
            forall i: nat {:trigger At(head, t, i).next} :: i <= |t| ==> At(head, t, i).next == At(head, t, i + 1)
  {
    var t := InsertAt(s, k, n);
    forall i: nat | i <= |t| ensures At(head, t, i).next == At(head, t, i + 1) {
      Shifted(head, s, k, n, i);
      Shifted(head, s, k, n, i + 1);
    }
  }

  lemma PrevLinks(head: Node, s: seq<Node>, k: nat, n: Node)
    requires k <= |s| && At(head, s, k + 1).prev == n && n.prev == At(head, s, k)
    requires forall i: nat {:trigger At(head, s, i).prev} :: 0 < i <= |s| + 1 && i != k + 1 ==>
             At(head, s, i).prev == At(head, s, i - 1)
    ensures var t := InsertAt(s, k, n);
            forall i: nat {:trigger At(head, t, i).prev} :: 0 < i <= |t| + 1 ==>
              At(head, t, i).prev == At(head, t, i - 1)
  {
    var t := InsertAt(s, k, n);
    forall i: nat | 0 < i <= |t| + 1 ensures At(head, t, i).prev == At(head, t, i - 1) {
      Shifted(head, s, k, n, i);
      Shifted(head, s, k, n, i - 1);
    }
  }

  lemma NewDistinct(s: seq<Node>, k: nat, n: Node)
    requires k <= |s| && n !in s && NoDup(s)
    ensures NoDup(InsertAt(s, k, n))
  {
  }

  /** Where the places of the longer list come from. */
  lemma Shifted(head: Node, s: seq<Node>, k: nat, n: Node, i: nat)
    requires k <= |s| && i <= |s| + 2
    ensures At(head, InsertAt(s, k, n), i) == if i <= k then At(head, s, i) else if i == k + 1 then n
            else At(head, s, i - 1)
  {
  }

  /** list_add: insert at the front. */
  method AddFront(n: Node, head: Node, ghost s: seq<Node>)
    requires Ring(head, s) && n != head && n !in s
    modifies n, head, s
    ensures Ring(head, [n] + s)
  {
    assert At(head, s, 0).next == At(head, s, 1);
    Link(n, head, head.next, head, s, 0);
    assert InsertAt(s, 0, n) == [n] + s;
  }

  /** list_add_tail: insert at the back. */
  method AddBack(n: Node, head: Node, ghost s: seq<Node>)
    requires Ring(head, s) && n != head && n !in s
    modifies n, head, s
    ensures Ring(head, s + [n])
  {
    assert At(head, s, |s| + 1).prev == At(head, s, |s|);
    Link(n, head.prev, head, head, s, |s|);
    assert InsertAt(s, |s|, n) == s + [n];
  }

  /** list_del of any member. */
  method Delete(n: Node, ghost head: Node, ghost s: seq<Node>, ghost k: nat)
    requires Ring(head, s) && k < |s| && s[k] == n
    modifies head, s
    ensures Ring(head, Without(s, k)) && n.next == n && n.prev == n
  {
    assert At(head, s, k + 1) == n;
    assert n.next == At(head, s, k + 2) && n.prev == At(head, s, k);
    n.next.prev := n.prev;
    n.prev.next := n.next;
    n.next := n;
    n.prev := n;
    NextCloses(head, s, k);
    PrevCloses(head, s, k);
  }

  /** Links forward that skip the member at place k + 1 are links of the shorter list. */
  lemma NextCloses(head: Node, s: seq<Node>, k: nat)
    requires k < |s| && At(head, s, k).next == At(head, s, k + 2)
    requires forall i: nat {:trigger At(head, s, i).next} :: i <= |s| && i != k && i != k + 1 ==>
             At(head, s, i).next == At(head, s, i + 1)
    ensures var t := Without(s, k);
            forall i: nat {:trigger At(head, t, i).next} :: i <= |t| ==> At(head, t, i).next == At(head, t, i + 1)
  {
    var t := Without(s, k);
    forall i: nat | i <= |t| ensures At(head, t, i).next == At(head, t, i + 1) {
      Closed(head, s, k, i);
      Closed(head, s, k, i + 1);
    }
  }

  lemma PrevCloses(head: Node, s: seq<Node>, k: nat)
    requires k < |s| && At(head, s, k + 2).prev == At(head, s, k)
    requires forall i: nat {:trigger At(head, s, i).prev} :: 0 < i <= |s| + 1 && i != k + 1 && i != k + 2 ==>
             At(head, s, i).prev == At(head, s, i - 1)
    ensures var t := Without(s, k);
            forall i: nat {:trigger At(head, t, i).prev} :: 0 < i <= |t| + 1 ==>
              At(head, t, i).prev == At(head, t, i - 1)
  {
    var t := Without(s, k);
    forall i: nat | 0 < i <= |t| + 1 ensures At(head, t, i).prev == At(head, t, i - 1) {
      Closed(head, s, k, i);
      Closed(head, s, k, i - 1);
    }
  }

  lemma Closed(head: Node, s: seq<Node>, k: nat, i: nat)
    requires k < |s| && i <= |s|
    ensures At(head, Without(s, k), i) == if i <= k then At(head, s, i) else At(head, s, i + 1)
  {
  }

  /** list_empty. */
  method IsEmpty(head: Node, ghost s: seq<Node>) returns (r: bool)
    requires Ring(head, s)
    ensures r <==> s == []
  {
    assert At(head, s, 0).next == At(head, s, 1);
    r := head.next == head;
  }

  ghost predicate SortedKeys(s: seq<Node>) {
    forall i, j :: 0 <= i < j < |s| ==> s[i].key <= s[j].key
  }

  /** The place behind every member whose key is no larger. */
  ghost predicate StableSlot(s: seq<Node>, key: int, k: nat) {
    k <= |s| && (forall i :: 0 <= i < k ==> s[i].key <= key) && (forall i :: k <= i < |s| ==> key < s[i].key)
  }

  /** The walk of add_task and add_timer_ticks: p is the first member with a larger key, or the head. */
  method FindSlot(key: int, head: Node, ghost s: seq<Node>) returns (p: Node, ghost k: nat)
    requires Ring(head, s) && SortedKeys(s)
    ensures StableSlot(s, key, k) && p == At(head, s, k + 1)
  {
    assert At(head, s, 0).next == At(head, s, 1);
    p := head.next;
    k := 0;
    while p != head
      invariant k <= |s| && p == At(head, s, k + 1)
      invariant forall i :: 0 <= i < k ==> s[i].key <= key
      decreases |s| - k
    {
      assert k < |s| && p == s[k];
      if key < p.key {
        break;
      }
      assert At(head, s, k + 1).next == At(head, s, k + 2);
      p := p.next;
      k := k + 1;
    }
  }

  /** Walk and splice keep the list sorted, newcomers behind their equals. */
  method InsertSorted(n: Node, head: Node, ghost s: seq<Node>) returns (ghost k: nat)
    requires Ring(head, s) && n != head && n !in s && SortedKeys(s)
    modifies n, head, s
    ensures StableSlot(s, n.key, k) && Ring(head, InsertAt(s, k, n)) && SortedKeys(InsertAt(s, k, n))
  {
    var p;
    p, k := FindSlot(n.key, head, s);
    StaysSorted(s, k, n);
    assert At(head, s, k + 1).prev == At(head, s, k);
    Link(n, p.prev, p, head, s, k);
  }

  lemma StaysSorted(s: seq<Node>, k: nat, n: Node)
    requires SortedKeys(s) && StableSlot(s, n.key, k)
    ensures SortedKeys(InsertAt(s, k, n))
  {
  }
}
