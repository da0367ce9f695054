/** reg values as the Devicetree Specification lays them out, and that the walks read them back. */
module DtbRegions {
  import opened Memory
  import opened Dtb
  import opened DtbWriter
  import opened Wrappers

  predicate Fits(r: Region) {
    r.base < Pow256(8) && r.size < Pow256(8)
  }

  predicate AllFit(rs: seq<Region>) {
    forall i :: 0 <= i < |rs| ==> Fits(rs[i])
  }

  /** Section 2.3.6: each region as two cells of address and two cells of size, big-endian. */
  function WriteRegions(rs: seq<Region>): (s: seq<Byte>)
    ensures |s| == 16 * |rs|
  {
    if rs == [] then []
    else
      var r := rs[|rs| - 1];
      WriteRegions(rs[..|rs| - 1]) + (ToBig(r.base, 8) + ToBig(r.size, 8))
  }

  /** The regions that are not empty, in order. */
  function Reported(rs: seq<Region>): seq<Region> {
    if rs == [] then [] else (if rs[0].size == 0 then [] else [rs[0]]) + Reported(rs[1..])
  }

  lemma ReportedFirst(r: Region, rest: seq<Region>)
    ensures Reported([r] + rest) == (if r.size == 0 then [] else [r]) + Reported(rest)
  {
    assert ([r] + rest)[1..] == rest;
  }

  lemma {:induction false} ReportedLast(rs: seq<Region>, r: Region)
    ensures Reported(rs + [r]) == Reported(rs) + if r.size == 0 then [] else [r]
  {
    if rs != [] {
      ReportedLast(rs[1..], r);
      ReportedFirst(rs[0], rs[1..] + [r]);
      assert rs + [r] == [rs[0]] + (rs[1..] + [r]);
    } else {
      ReportedFirst(r, []);
      assert rs + [r] == [r] + [];
    }
  }

  lemma RegionHeld(b: seq<Byte>, p: nat, r: Region)
    requires Fits(r) && Holds(b, p, ToBig(r.base, 8) + ToBig(r.size, 8))
    ensures p + 16 <= |b| && RegionAt(b, p) == r
  {
    HoldsSplit(b, p, ToBig(r.base, 8), ToBig(r.size, 8));
    BigRoundTrip(b, p, r.base, 8);
    BigRoundTrip(b, p + 8, r.size, 8);
  }

  lemma NothingReported(b: seq<Byte>, p: nat)
    requires Holds(b, p, [])
    ensures p <= |b| && EntriesAt(b, p, 0) == Reported([])
  {
  }

  lemma {:induction false} EntriesHeld(b: seq<Byte>, p: nat, rs: seq<Region>)
    requires AllFit(rs) && Holds(b, p, WriteRegions(rs))
    ensures p + 16 * |rs| <= |b| && EntriesAt(b, p, |rs|) == Reported(rs)
  {
    hide ToBig, RegionAt, Reported, Pow256, Holds;
    if rs == [] {
      NothingReported(b, p);
    } else {
      var n := |rs| - 1;
      var front, r := rs[..n], rs[n];
      HoldsSplit(b, p, WriteRegions(front), ToBig(r.base, 8) + ToBig(r.size, 8));
      EntriesHeld(b, p, front);
      RegionHeld(b, p + 16 * n, r);
      ReportedLast(front, r);
      assert front + [r] == rs;
    }
  }

  lemma {:induction false} FirstHeld(b: seq<Byte>, p: nat, rs: seq<Region>)
    requires AllFit(rs) && Holds(b, p, WriteRegions(rs)) && rs != []
    ensures p + 16 <= |b| && RegionAt(b, p) == rs[0]
  {
    var n := |rs| - 1;
    var front, r := rs[..n], rs[n];
    HoldsSplit(b, p, WriteRegions(front), ToBig(r.base, 8) + ToBig(r.size, 8));
    if n == 0 {
      RegionHeld(b, p, r);
    } else {
      FirstHeld(b, p, front);
    }
  }

  /** A reg value is read as the regions written, but for empty ones; a rest too short for a region is none. */
  lemma EntriesWritten(rs: seq<Region>, rest: seq<Byte>)
    requires AllFit(rs) && |rest| < 16
    ensures Entries(WriteRegions(rs) + rest) == Reported(rs)
  {
    var b := WriteRegions(rs) + rest;
    assert b[0..0 + |WriteRegions(rs)|] == WriteRegions(rs);
    EntriesHeld(b, 0, rs);
    assert |b| / 16 == |rs|;
  }

  lemma FirstWritten(rs: seq<Region>, rest: seq<Byte>)
    requires AllFit(rs) && rs != []
    ensures RegionAt(WriteRegions(rs) + rest, 0) == rs[0]
  {
    var b := WriteRegions(rs) + rest;
    assert b[0..0 + |WriteRegions(rs)|] == WriteRegions(rs);
    FirstHeld(b, 0, rs);
  }

  // ---- trees whose reg values are written so ----

  /** The reg properties among these hold the lists, in order. */
  ghost predicate PropsHold(props: seq<Prop>, lists: seq<seq<Region>>)
    decreases |props|
  {
    if props == [] then lists == []
    else if props[0].name != REG then PropsHold(props[1..], lists)
    else
      && lists != [] && AllFit(lists[0]) && PropsHold(props[1..], lists[1..])
      && exists rest :: |rest| < 16 && props[0].value == WriteRegions(lists[0]) + rest
  }

  /** So do those of these nodes, node by node. */
  ghost predicate NodesHold(f: Forest, nodes: seq<seq<seq<Region>>>)
    decreases f
  {
    if f.Empty? then nodes == [] else nodes != [] && PropsHold(f.props, nodes[0]) && NodesHold(f.next, nodes[1..])
  }

  function AllReported(lists: seq<seq<Region>>): seq<Region> {
    if lists == [] then [] else Reported(lists[0]) + AllReported(lists[1..])
  }

  function NodesReported(nodes: seq<seq<seq<Region>>>): seq<Region> {
    if nodes == [] then [] else AllReported(nodes[0]) + NodesReported(nodes[1..])
  }

  lemma {:induction false} PropsReported(out: seq<Region>, props: seq<Prop>, lists: seq<seq<Region>>)
    requires PropsHold(props, lists)
    ensures RegEntries(out, props) == out + AllReported(lists)
    decreases |props|
  {
    hide WriteRegions, Reported, Entries, AllFit;
    if props != [] {
      if props[0].name == REG {
        var rest :| |rest| < 16 && props[0].value == WriteRegions(lists[0]) + rest;
        EntriesWritten(lists[0], rest);
        PropsReported(out + Reported(lists[0]), props[1..], lists[1..]);
      } else {
        PropsReported(out, props[1..], lists);
      }
    }
  }

  lemma {:induction false} OwnReported(out: seq<Region>, f: Forest, nodes: seq<seq<seq<Region>>>)
    requires NodesHold(f, nodes)
    ensures OwnEntries(out, f) == out + NodesReported(nodes)
    decreases f
  {
    hide PropsHold, AllReported, RegEntries;
    if f.Tree? {
      PropsReported(out, f.props, nodes[0]);
      OwnReported(out + AllReported(nodes[0]), f.next, nodes[1..]);
    }
  }

  /** dtb_walk_reserved_memory reports the regions its nodes were written with, the empty ones left out. */
  lemma ReservedWritten(root: Forest, nodes: seq<seq<seq<Region>>>)
    requires root.Tree? && FirstNamed(root.kids, RESERVED).Tree?
    requires NodesHold(FirstNamed(root.kids, RESERVED).kids, nodes)
    ensures ReservedRegions(root) == NodesReported(nodes)
  {
    OwnReported([], FirstNamed(root.kids, RESERVED).kids, nodes);
  }

  /** The first region of the first list that has one. */
  function FirstRegion(lists: seq<seq<Region>>): Option<Region> {
    if lists == [] then None else if lists[0] != [] then Some(lists[0][0]) else FirstRegion(lists[1..])
  }

  /** The first region of the first of the nodes named memory that has one. */
  function FirstBank(f: Forest, nodes: seq<seq<seq<Region>>>): Option<Region>
    requires NodesHold(f, nodes)
    decreases f
  {
    if f.Empty? then None
    else if BaseName(f.name) == MEMORY && FirstRegion(nodes[0]).Some? then FirstRegion(nodes[0])
    else FirstBank(f.next, nodes[1..])
  }

  lemma {:induction false} FirstRegWritten(props: seq<Prop>, lists: seq<seq<Region>>)
    requires PropsHold(props, lists)
    ensures FirstReg(props) == FirstRegion(lists)
    decreases |props|
  {
    if props != [] {
      if props[0].name == REG {
        var rest :| |rest| < 16 && props[0].value == WriteRegions(lists[0]) + rest;
        if lists[0] != [] {
          FirstWritten(lists[0], rest);
        }
        FirstRegWritten(props[1..], lists[1..]);
      } else {
        FirstRegWritten(props[1..], lists);
      }
    }
  }

  /** dtb_get_memory_region gives the first region that the memory nodes were written with. */
  lemma {:induction false} MemoryWritten(f: Forest, nodes: seq<seq<seq<Region>>>)
    requires NodesHold(f, nodes)
    ensures MemoryRegion(f) == FirstBank(f, nodes)
    decreases f
  {
    if f.Tree? {
      FirstRegWritten(f.props, nodes[0]);
      MemoryWritten(f.next, nodes[1..]);
    }
  }

  // ---- from the bytes of a blob ----

  lemma {:induction false} PlacedProps(props: seq<Prop>, p: nat, lists: seq<seq<Region>>)
    requires PropsHold(props, lists)
    ensures PropsHold(PlaceProps(props, p), lists)
    decreases |props|
  {
    if props != [] {
      var q := AfterProp(p, props[0]);
      assert PlaceProps(props, p)[1..] == PlaceProps(props[1..], q);
      PlacedProps(props[1..], q, if props[0].name == REG then lists[1..] else lists);
    }
  }

  lemma {:induction false} PlacedNodes(f: Forest, p: nat, nodes: seq<seq<seq<Region>>>)
    requires NodesHold(f, nodes)
    ensures NodesHold(PlaceForest(f, p), nodes)
    decreases f
  {
    if f.Tree? {
      var p1 := AfterName(p, f.name);
      PlacedProps(f.props, p1, nodes[0]);
      PlacedNodes(f.next, EndForest(f.kids, EndProps(f.props, p1)) + 4, nodes[1..]);
    }
  }

  lemma {:induction false} PlacedFirst(f: Forest, p: nat, base: seq<Byte>) returns (q: nat)
    ensures FirstNamed(PlaceForest(f, p), base) == PlaceForest(FirstNamed(f, base), q)
    decreases f
  {
    q := p;
    if f.Tree? && BaseName(f.name) != base {
      q := PlacedFirst(f.next, EndForest(f.kids, EndProps(f.props, AfterName(p, f.name))) + 4, base);
    }
  }

  /** What the blob of a tree holds, and where dtb.c was told it is. */
  ghost predicate BlobOf(mem: seq<Byte>, base: nat, root: Forest, names: seq<seq<Byte>>, x: Extra) {
    && root.Tree? && root.next.Empty? && x.Valid() && base != 0 && base % 4 == 0
    && Storable(Flatten(root, Done), names) && (forall i :: 0 <= i < |names| ==> NulFree(names[i]))
    && |WriteBlob(root, names, x)| < Pow256(4) && Holds(mem, base, WriteBlob(root, names, x))
  }

  /** The reserved regions written into a blob are those reported from its bytes. */
  method ReservedFromBlob(mem: seq<Byte>, base: nat, ghost root: Forest, ghost names: seq<seq<Byte>>, ghost x: Extra,
                          ghost nodes: seq<seq<seq<Region>>>)
    returns (reports: seq<Region>)
    requires BlobOf(mem, base, root, names, x) && FirstNamed(root.kids, RESERVED).Tree?
    requires NodesHold(FirstNamed(root.kids, RESERVED).kids, nodes)
    ensures reports == NodesReported(nodes)
  {
    hide WriteBlob, Storable, NodesHold, NodesReported, Holds;
    WrittenBlob(mem, base, root, names, x);
    ghost var placed := PlaceForest(root, base + StructOffset(x));
    PlacedReserved(root, base + StructOffset(x), nodes);
    reports := WalkReservedMemory(mem, base, placed);
  }

  lemma PlacedReserved(root: Forest, p: nat, nodes: seq<seq<seq<Region>>>)
    requires root.Tree? && FirstNamed(root.kids, RESERVED).Tree?
    requires NodesHold(FirstNamed(root.kids, RESERVED).kids, nodes)
    ensures PlaceForest(root, p).Tree? && ReservedRegions(PlaceForest(root, p)) == NodesReported(nodes)
  {
    var r := FirstNamed(root.kids, RESERVED);
    var q := PlacedFirst(root.kids, EndProps(root.props, AfterName(p, root.name)), RESERVED);
    PlacedNodes(r.kids, EndProps(r.props, AfterName(q, r.name)), nodes);
    ReservedWritten(PlaceForest(root, p), nodes);
  }

  /** The first memory region written into a blob is the one read from its bytes. */
  method MemoryFromBlob(mem: seq<Byte>, base: nat, base0: nat, size0: nat, ghost root: Forest,
                        ghost names: seq<seq<Byte>>, ghost x: Extra, ghost nodes: seq<seq<seq<Region>>>)
    returns (r: int, b: nat, size: nat)
    requires BlobOf(mem, base, root, names, x) && NodesHold(root.kids, nodes)
    ensures var bank := FirstBank(root.kids, nodes);
            if bank.Some? then r == 0 && b == bank.value.base && size == bank.value.size
            else r == -1 && b == base0 && size == size0
  {
    hide WriteBlob, Storable, NodesHold, Holds;
    WrittenBlob(mem, base, root, names, x);
    ghost var placed := PlaceForest(root, base + StructOffset(x));
    PlacedMemory(root, base + StructOffset(x), nodes);
    r, b, size := GetMemoryRegion(mem, base, base0, size0, placed);
  }

  lemma PlacedMemory(root: Forest, p: nat, nodes: seq<seq<seq<Region>>>)
    requires root.Tree? && NodesHold(root.kids, nodes)
    ensures PlaceForest(root, p).Tree? && MemoryRegion(PlaceForest(root, p).kids) == FirstBank(root.kids, nodes)
  {
    var q := EndProps(root.props, AfterName(p, root.name));
    PlacedNodes(root.kids, q, nodes);
    MemoryWritten(PlaceForest(root.kids, q), nodes);
    PlacedBank(root.kids, q, nodes);
  }

  lemma {:induction false} PlacedBank(f: Forest, p: nat, nodes: seq<seq<seq<Region>>>)
    requires NodesHold(f, nodes) && NodesHold(PlaceForest(f, p), nodes)
    ensures FirstBank(PlaceForest(f, p), nodes) == FirstBank(f, nodes)
    decreases f
  {
    if f.Tree? {
      PlacedBank(f.next, EndForest(f.kids, EndProps(f.props, AfterName(p, f.name))) + 4, nodes[1..]);
    }
  }
}
