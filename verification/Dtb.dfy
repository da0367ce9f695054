/** The flattened devicetree walkers, against search in the tree that was flattened. */
module Dtb {
  import opened Memory
  import opened Wrappers

  const MAGIC: nat := 0xD00DFEED
  const BEGIN_NODE: nat := 1
  const END_NODE: nat := 2
  const PROP: nat := 3
  const NOP: nat := 4

  const SLASH: Byte := 0x2F
  const AT: Byte := 0x40

  const REG: seq<Byte> := [0x72, 0x65, 0x67]                  // "reg"
  const MEMORY: seq<Byte> := [0x6D, 0x65, 0x6D, 0x6F, 0x72, 0x79]  // "memory"
  const RESERVED: seq<Byte> :=                                // "reserved-memory"
    [0x72, 0x65, 0x73, 0x65, 0x72, 0x76, 0x65, 0x64, 0x2D] + MEMORY

  // ---- trees and their flattened form ----

  /** A property: its name, its value and the address at which the value is stored. */
  datatype Prop = Prop(name: seq<Byte>, at: nat, value: seq<Byte>)

  /** Sibling nodes in document order, each with its properties and its children. */
  datatype Forest = Empty | Tree(name: seq<Byte>, props: seq<Prop>, kids: Forest, next: Forest)

  datatype Tokens =
    | Done
    | Begin(name: seq<Byte>, rest: Tokens)
    | Close(rest: Tokens)
    | Property(prop: Prop, rest: Tokens)

  /** A node is its begin token, its properties, its children and its end token. */
  function Flatten(f: Forest, tail: Tokens): Tokens {
    match f
    case Empty => tail
    case Tree(name, props, kids, next) =>
      Begin(name, FlattenProps(props, Flatten(kids, Close(Flatten(next, tail)))))
  }

  function FlattenProps(props: seq<Prop>, tail: Tokens): Tokens {
    if props == [] then tail else Property(props[0], FlattenProps(props[1..], tail))
  }

  // ---- bytes ----

  /** The 32-bit word with these bytes, the least significant first. */
  function Join(a: int, b: int, c: int, d: int): int {
    a + 256 * b + 0x1_0000 * c + 0x100_0000 * d
  }

  /** The number that n bytes from p on make, most significant first. */
  function BigEndian(b: seq<Byte>, p: nat, n: nat): nat
    requires p + n <= |b|
  {
    if n == 0 then 0 else BigEndian(b, p, n - 1) * 256 + b[p + n - 1]
  }

  /** A 32-bit big-endian word. */
  function Word(b: seq<Byte>, p: nat): nat
    requires p + 4 <= |b|
  {
    BigEndian(b, p, 4)
  }

  /** What the little-endian machine loads from there. */
  function Load(b: seq<Byte>, p: nat): (w: nat)
    requires p + 4 <= |b|
    ensures w < 0x1_0000_0000
  {
    Join(b[p], b[p + 1], b[p + 2], b[p + 3])
  }

  /** bswap_32: the four bytes of x in the opposite order. */
  function Bswap32(x: nat): (r: nat) {
    Join(x / 0x100_0000 % 256, x / 0x1_0000 % 256, x / 256 % 256, x % 256)
  }

  lemma BswapReverses(a: Byte, b: Byte, c: Byte, d: Byte)
    ensures Bswap32(Join(a, b, c, d)) == Join(d, c, b, a)
  {
    var x := Join(a, b, c, d);
    var y, z := b + 256 * (c + 256 * d), c + 256 * d;
    LowByte(a, y);
    LowByte(b, z);
    LowByte(c, d);
    assert x == a + 256 * y && x / 0x1_0000 == x / 256 / 256 && x / 0x100_0000 == x / 0x1_0000 / 256;
  }

  lemma LowByte(a: Byte, y: nat)
    ensures (a + 256 * y) % 256 == a && (a + 256 * y) / 256 == y
  {
  }

  /** The first byte is the most significant one. */
  lemma WordBytes(b: seq<Byte>, p: nat)
    requires p + 4 <= |b|
    ensures Word(b, p) ==
            0x100_0000 * (b[p] as int) + 0x1_0000 * (b[p + 1] as int) + 0x100 * (b[p + 2] as int) + b[p + 3]
  {
    assert BigEndian(b, p, 2) == BigEndian(b, p, 1) * 256 + b[p + 1];
    assert BigEndian(b, p, 4) == BigEndian(b, p, 3) * 256 + b[p + 3];
  }

  method ReadWord(mem: seq<Byte>, p: nat) returns (w: nat)
    requires p + 4 <= |mem|
    ensures w == Word(mem, p)
  {
    BswapReverses(mem[p], mem[p + 1], mem[p + 2], mem[p + 3]);
    w := Bswap32(Load(mem, p));
    assert BigEndian(mem, p, 2) == BigEndian(mem, p, 1) * 256 + mem[p + 1];
    assert BigEndian(mem, p, 4) == BigEndian(mem, p, 3) * 256 + mem[p + 3];
  }

  /**
   * The structure block from p up to end reads as these tokens. No-op tokens may stand anywhere;
   * the end token, a token the format does not define and the end of the block all end it.
   */
  predicate BlockAt(mem: seq<Byte>, strings: nat, p: nat, end: nat, toks: Tokens)
    decreases end - p
  {
    if p >= end then toks.Done?
    else
      && p + 4 <= end <= |mem|
      && var w := Word(mem, p);
      if w == NOP then BlockAt(mem, strings, p + 4, end, toks)
      else
        match toks
        case Done => w != BEGIN_NODE && w != END_NODE && w != PROP
        case Begin(name, rest) =>
          w == BEGIN_NODE && StringAt(mem, p + 4, name) && BlockAt(mem, strings, AfterName(p, name), end, rest)
        case Close(rest) => w == END_NODE && BlockAt(mem, strings, p + 4, end, rest)
        case Property(prop, rest) =>
          w == PROP && PropAt(mem, strings, p, prop) && BlockAt(mem, strings, AfterProp(p, prop), end, rest)
  }

  function AfterName(p: nat, name: seq<Byte>): (q: nat)
    ensures q > p && q % 4 == 0
  {
    Align4(p + 4 + |name| + 1)
  }

  function AfterProp(p: nat, prop: Prop): (q: nat)
    ensures q > p && q % 4 == 0
  {
    Align4(p + 12 + |prop.value|)
  }

  /** Length, offset of the name in the strings block, and the value. */
  predicate PropAt(mem: seq<Byte>, strings: nat, p: nat, prop: Prop) {
    && prop.at == p + 12
    && prop.at + |prop.value| <= |mem|
    && Word(mem, p + 4) == |prop.value|
    && StringAt(mem, strings + Word(mem, p + 8), prop.name)
    && mem[prop.at..prop.at + |prop.value|] == prop.value
  }

  // ---- names and paths ----

  /** Index of the first c in s, or the length of s. */
  function Until(s: seq<Byte>, c: Byte): (k: nat)
    ensures k <= |s| && (k < |s| ==> s[k] == c) && forall i :: 0 <= i < k ==> s[i] != c
  {
    if s == [] || s[0] == c then 0 else 1 + Until(s[1..], c)
  }

  /** A node's name without its unit address. */
  function BaseName(name: seq<Byte>): (b: seq<Byte>)
    ensures b <= name && (forall i :: 0 <= i < |b| ==> b[i] != AT) && (|b| < |name| ==> name[|b|] == AT)
  {
    name[..Until(name, AT)]
  }

  /** node_name_match, of the C string at p. */
  method NodeNameMatch(mem: seq<Byte>, p: nat, seg: seq<Byte>, ghost name: seq<Byte>) returns (r: bool)
    requires StringAt(mem, p, name)
    ensures r <==> BaseName(name) == seg
  {
    ghost var base := BaseName(name);
    assert forall j :: 0 <= j < |name| ==> mem[p + j] == name[j];
    var i := 0;
    while i < |seg|
      invariant i <= |seg| && i <= |base| && base[..i] == seg[..i]
    {
      if mem[p + i] == 0 || mem[p + i] == AT {
        assert |base| == i;
        return false;
      }
      if mem[p + i] != seg[i] {
        assert i < |base| ==> base[i] != seg[i];
        return false;
      }
      i := i + 1;
    }
    r := mem[p + i] == 0 || mem[p + i] == AT;
    assert r <==> |base| == i;
  }

  /** The parts of s between the slashes; there is always one more than there are slashes. */
  function Split(s: seq<Byte>): (parts: seq<seq<Byte>>)
    ensures |parts| > 0
    decreases |s|
  {
    var k := Until(s, SLASH);
    if k == |s| then [s] else [s[..k]] + Split(s[k + 1..])
  }

  /** The parts with slashes between them. */
  function Joined(parts: seq<seq<Byte>>): seq<Byte>
    requires parts != []
  {
    if |parts| == 1 then parts[0] else parts[0] + [SLASH] + Joined(parts[1..])
  }

  /** The parts make up s, and none has a slash. */
  lemma {:induction false} SplitJoins(s: seq<Byte>)
    ensures Joined(Split(s)) == s
    ensures forall i, j :: 0 <= i < |Split(s)| && 0 <= j < |Split(s)[i]| ==> Split(s)[i][j] != SLASH
    decreases |s|
  {
    var k := Until(s, SLASH);
    if k < |s| {
      SplitJoins(s[k + 1..]);
      assert Split(s)[1..] == Split(s[k + 1..]);
      assert s == s[..k] + [SLASH] + s[k + 1..];
    }
  }

  /** The idx-th part, where an empty part at the very end is no part. */
  function Segment(s: seq<Byte>, idx: int): (r: Option<seq<Byte>>)
    decreases |s|
  {
    if s == [] then None
    else
      var k := Until(s, SLASH);
      if idx == 0 then Some(s[..k]) else if k == |s| then None else Segment(s[k + 1..], idx - 1)
  }

  lemma {:induction false} SegmentOfSplit(s: seq<Byte>, idx: nat)
    ensures var parts := Split(s);
            Segment(s, idx) ==
              if idx >= |parts| || (idx == |parts| - 1 && parts[idx] == []) then None else Some(parts[idx])
    decreases |s|
  {
    hide Split;
    SplitFirst(s);
    var k := Until(s, SLASH);
    if k < |s| && idx > 0 {
      SegmentOfSplit(s[k + 1..], idx - 1);
    }
  }

  /** The part before the first slash, and those behind it. */
  lemma SplitFirst(s: seq<Byte>)
    ensures var k, parts := Until(s, SLASH), Split(s);
            && parts[0] == s[..k]
            && (if k == |s| then |parts| == 1
                else var rest := Split(s[k + 1..]);
                     |parts| == |rest| + 1 && forall i :: 0 <= i < |rest| ==> parts[i + 1] == rest[i])
  {
  }

  /** The idx-th component of a path; a string without a leading slash has none. */
  function PathPart(path: seq<Byte>, idx: int): Option<seq<Byte>> {
    if path == [] || path[0] != SLASH then None else SegmentFrom(path, 1, idx)
  }

  /** path_segment: the start and the length of the idx-th component of a path, or nothing. */
  method PathSegment(path: seq<Byte>, idx: int) returns (found: bool, start: nat, len: nat)
    ensures found ==> start + len <= |path|
    ensures PathPart(path, idx) == if found then Some(path[start..start + len]) else None
  {
    found, start, len := false, 0, 0;
    if path == [] || path[0] != SLASH {
      return;
    }
    var p, i := 1, 0;
    while p < |path|
      invariant 1 <= p <= |path| && !found
      invariant SegmentFrom(path, p, idx - i) == PathPart(path, idx)
    {
      start := p;
      p := ComponentEnd(path, p, idx - i);
      if i == idx {
        return true, start, p - start;
      }
      i := i + 1;
      p := AfterComponent(path, p);
    }
  }

  method ComponentEnd(path: seq<Byte>, start: nat, ghost idx: int) returns (p: nat)
    requires start < |path|
    ensures start <= p <= |path| && start < AfterComponent(path, p) <= |path|
    ensures SegmentFrom(path, start, idx) ==
            if idx == 0 then Some(path[start..p]) else SegmentFrom(path, AfterComponent(path, p), idx - 1)
  {
    p := start;
    while p < |path| && path[p] != SLASH
      invariant start <= p <= |path|
      invariant p + Until(path[p..], SLASH) == start + Until(path[start..], SLASH)
    {
      assert path[p..][1..] == path[p + 1..];
      p := p + 1;
    }
    SegmentNext(path, start, p, idx);
  }

  function AfterComponent(path: seq<Byte>, p: nat): nat {
    if p < |path| && path[p] == SLASH then p + 1 else p
  }

  lemma SegmentNext(path: seq<Byte>, start: nat, p: nat, idx: int)
    requires start < |path| && p == start + Until(path[start..], SLASH)
    ensures start <= p <= |path| && start < AfterComponent(path, p) <= |path|
    ensures SegmentFrom(path, start, idx) ==
            if idx == 0 then Some(path[start..p]) else SegmentFrom(path, AfterComponent(path, p), idx - 1)
  {
    var s := path[start..];
    var k := p - start;
    assert s[..k] == path[start..p];
    if p < |path| {
      assert s[k + 1..] == path[p + 1..] && s[k] == path[p];
    }
  }

  /** The idx-th part of what stands from p on. */
  function SegmentFrom(path: seq<Byte>, p: nat, idx: int): (r: Option<seq<Byte>>)
    ensures p >= |path| ==> r == None
  {
    if p <= |path| then Segment(path[p..], idx) else None
  }

  /** path_depth: how many components a path has; "/" has none, and -1 stands for no path. */
  method PathDepth(path: seq<Byte>) returns (n: int)
    ensures n == if path == [] || path[0] != SLASH then -1 else if |path| == 1 then 0 else |Split(path[1..])|
  {
    if path == [] || path[0] != SLASH {
      return -1;
    }
    if |path| == 1 {
      return 0;
    }
    n := 0;
    var p := 1;
    while p < |path|
      invariant 1 <= p <= |path|
      invariant n + |Split(path[p..])| == |Split(path[1..])|
    {
      SplitNext(path[p..]);
      assert path[p..][1..] == path[p + 1..];
      if path[p] == SLASH {
        n := n + 1;
      }
      p := p + 1;
    }
    n := n + 1;
  }

  lemma SplitNext(s: seq<Byte>)
    requires s != []
    ensures |Split(s)| == |Split(s[1..])| + (if s[0] == SLASH then 1 else 0)
  {
    var k := Until(s, SLASH);
    if s[0] != SLASH && k < |s| {
      assert s[1..][k..] == s[k + 1..];
    }
  }

  // ---- reading one token's operands ----

  /** The address after a node's name, padding included. */
  method SkipName(mem: seq<Byte>, p: nat, ghost name: seq<Byte>) returns (cur: nat)
    requires StringAt(mem, p + 4, name)
    ensures cur == AfterName(p, name)
  {
    cur := p + 4;
    ghost var nul := cur + |name|;
    assert forall j :: cur <= j < nul ==> mem[j] == name[j - cur];
    assert forall j :: cur <= j < nul ==> mem[j] != 0;
    while mem[cur] != 0
      invariant p + 4 <= cur <= nul
      invariant forall j :: cur <= j < nul ==> mem[j] != 0
      decreases nul - cur
    {
      cur := cur + 1;
    }
    cur := Align4(cur + 1);
  }

  /** Past a begin token and its name; hit tells whether the node is looked for and has that base name. */
  method EnterNode(mem: seq<Byte>, strings: nat, p: nat, end: nat, look: bool, seg: seq<Byte>, ghost toks: Tokens)
    returns (cur: nat, hit: bool)
    requires p < end && BlockAt(mem, strings, p, end, toks) && Word(mem, p) == BEGIN_NODE
    ensures toks.Begin? && cur > p && BlockAt(mem, strings, cur, end, toks.rest)
    ensures hit <==> look && BaseName(toks.name) == seg
  {
    cur := SkipName(mem, p, toks.name);
    hit := false;
    if look {
      hit := NodeNameMatch(mem, p + 4, seg, toks.name);
    }
  }

  /** A property's length; hit tells whether it is looked for and has that name. */
  method EnterProp(mem: seq<Byte>, strings: nat, p: nat, end: nat, look: bool, target: seq<Byte>, ghost toks: Tokens)
    returns (len: nat, hit: bool)
    requires p < end && BlockAt(mem, strings, p, end, toks) && Word(mem, p) == PROP && NulFree(target)
    ensures toks.Property? && ValueAt(mem, p + 12, len, toks.prop)
    ensures BlockAt(mem, strings, Align4(p + 12 + len), end, toks.rest)
    ensures hit <==> look && toks.prop.name == target
  {
    len := ReadWord(mem, p + 4);
    hit := false;
    if look {
      var nameoff := ReadWord(mem, p + 8);
      hit := StrEq(mem, strings + nameoff, target, toks.prop.name);
    }
  }

  predicate ValueAt(mem: seq<Byte>, at: nat, len: nat, prop: Prop) {
    at == prop.at && len == |prop.value| && at + len <= |mem| && mem[at..at + len] == prop.value
  }

  /** The header at base: where the blocks are; a wrong magic number makes the rest meaningless. */
  predicate HeaderAt(mem: seq<Byte>, base: nat, root: Forest) {
    && base + 40 <= |mem|
    && (Word(mem, base) == MAGIC ==> root.Tree? && root.next.Empty? && StructAt(mem, base, Flatten(root, Done)))
  }

  predicate StructAt(mem: seq<Byte>, base: nat, toks: Tokens)
    requires base + 40 <= |mem|
  {
    var start := base + Word(mem, base + 8);
    BlockAt(mem, base + Word(mem, base + 12), start, start + Word(mem, base + 36), toks)
  }

  /** A blob was registered and its header carries the magic number. */
  predicate Usable(mem: seq<Byte>, base: nat)
    requires base != 0 ==> base + 40 <= |mem|
  {
    base != 0 && Word(mem, base) == MAGIC
  }

  method ReadHeader(mem: seq<Byte>, base: nat) returns (ok: bool, strings: nat, cur: nat, end: nat)
    requires base + 40 <= |mem|
    ensures ok <==> Word(mem, base) == MAGIC
    ensures cur == base + Word(mem, base + 8) && end == cur + Word(mem, base + 36)
    ensures strings == base + Word(mem, base + 12)
  {
    var magic := ReadWord(mem, base);
    var size := ReadWord(mem, base + 36);
    var structOff := ReadWord(mem, base + 8);
    var stringsOff := ReadWord(mem, base + 12);
    ok, cur, strings := magic == MAGIC, base + structOff, base + stringsOff;
    end := cur + size;
  }

  // ---- regions ----

  datatype Region = Region(base: nat, size: nat)

  /** A 16-byte reg entry: two address cells, two size cells. */
  function RegionAt(b: seq<Byte>, p: nat): Region
    requires p + 16 <= |b|
  {
    Region(BigEndian(b, p, 8), BigEndian(b, p + 8, 8))
  }

  /** The entries of non-zero size in a reg value; a short rest is no entry. */
  function Entries(value: seq<Byte>): seq<Region> {
    EntriesAt(value, 0, |value| / 16)
  }

  /** (hi << 32) | lo */
  method ReadDouble(mem: seq<Byte>, p: nat) returns (w: nat)
    requires p + 8 <= |mem|
    ensures w == BigEndian(mem, p, 8)
  {
    var hi := ReadWord(mem, p);
    var lo := ReadWord(mem, p + 4);
    w := hi * 0x1_0000_0000 + lo;
    BigEndianSplit(mem, p, 4);
  }

  lemma {:induction false} BigEndianSplit(b: seq<Byte>, p: nat, n: nat)
    requires p + 4 + n <= |b|
    ensures BigEndian(b, p, 4 + n) == BigEndian(b, p, 4) * Pow256(n) + BigEndian(b, p + 4, n)
    ensures n == 4 ==> Pow256(n) == 0x1_0000_0000
  {
    if n > 0 {
      BigEndianSplit(b, p, n - 1);
      Distribute(BigEndian(b, p, 4), Pow256(n - 1), BigEndian(b, p + 4, n - 1));
    }
  }

  lemma Distribute(a: nat, k: nat, b: nat)
    ensures (a * k + b) * 256 == a * (256 * k) + b * 256
  {
  }

  function Pow256(n: nat): nat {
    if n == 0 then 1 else 256 * Pow256(n - 1)
  }

  method ReadRegion(mem: seq<Byte>, p: nat) returns (r: Region)
    requires p + 16 <= |mem|
    ensures r == RegionAt(mem, p)
  {
    var addr := ReadDouble(mem, p);
    var sz := ReadDouble(mem, p + 8);
    r := Region(addr, sz);
  }

  lemma {:induction false} BigEndianInValue(mem: seq<Byte>, at: nat, value: seq<Byte>, k: nat, n: nat)
    requires at + |value| <= |mem| && mem[at..at + |value|] == value && k + n <= |value|
    ensures BigEndian(value, k, n) == BigEndian(mem, at + k, n)
  {
    if n > 0 {
      BigEndianInValue(mem, at, value, k, n - 1);
      assert value[k + n - 1] == mem[at + (k + n - 1)];
    }
  }

  lemma RegionInValue(mem: seq<Byte>, at: nat, value: seq<Byte>, k: nat)
    requires at + |value| <= |mem| && mem[at..at + |value|] == value && k + 16 <= |value|
    ensures RegionAt(value, k) == RegionAt(mem, at + k)
  {
    BigEndianInValue(mem, at, value, k, 8);
    BigEndianInValue(mem, at, value, k + 8, 8);
  }

  function NonEmpty(r: Region): seq<Region> {
    if r.size > 0 then [r] else []
  }

  /** Those of the first n entries at p that have a non-zero size. */
  function EntriesAt(b: seq<Byte>, p: nat, n: nat): seq<Region>
    requires p + 16 * n <= |b|
  {
    if n == 0 then [] else EntriesAt(b, p, n - 1) + NonEmpty(RegionAt(b, p + 16 * (n - 1)))
  }

  lemma {:induction false} EntriesInValue(mem: seq<Byte>, at: nat, value: seq<Byte>, n: nat)
    requires at + |value| <= |mem| && mem[at..at + |value|] == value && 16 * n <= |value|
    ensures EntriesAt(mem, at, n) == EntriesAt(value, 0, n)
  {
    if n > 0 {
      RegionInValue(mem, at, value, 16 * (n - 1));
      EntriesInValue(mem, at, value, n - 1);
    }
  }

  /** Reports every entry of non-zero size; a report is a call of the callback. */
  method ReportEntries(mem: seq<Byte>, at: nat, len: nat, before: seq<Region>, ghost prop: Prop)
    returns (out: seq<Region>)
    requires ValueAt(mem, at, len, prop)
    ensures out == before + Entries(prop.value)
  {
    var entries := len / 16;
    assert 16 * entries <= len;
    out := ReportAll(mem, at, entries, before);
    EntriesInValue(mem, at, prop.value, entries);
  }

  method ReportAll(mem: seq<Byte>, at: nat, entries: nat, before: seq<Region>) returns (out: seq<Region>)
    requires at + 16 * entries <= |mem|
    ensures out == before + EntriesAt(mem, at, entries)
  {
    hide RegionAt;
    out := before;
    var p := at;
    for e := 0 to entries
      invariant p == at + 16 * e && out == before + EntriesAt(mem, at, e)
    {
      var r := ReadRegion(mem, p);
      if r.size > 0 {
        out := out + [r];
      }
      p := p + 16;
    }
  }

  // ---- dtb_walk_reserved_memory ----

  /** All reports at the end of the walk: state 0 searches, 1 is inside, 2 is done. */
  function Walk(toks: Tokens, depth: int, state: nat, out: seq<Region>): seq<Region> {
    if state >= 2 then out else
      match toks
      case Done => out
      case Begin(name, rest) =>
        Walk(rest, depth + 1, if state == 0 && depth + 1 == 1 && BaseName(name) == RESERVED then 1 else state, out)
      case Close(rest) => Walk(rest, depth - 1, if state == 1 && depth == 1 then 2 else state, out)
      case Property(prop, rest) =>
        Walk(rest, depth, state,
             if state == 1 && depth == 2 && prop.name == REG then out + Entries(prop.value) else out)
  }

  /** The given regions followed by the entries of the reg properties among these. */
  function RegEntries(out: seq<Region>, props: seq<Prop>): seq<Region>
    decreases |props|
  {
    if props == [] then out
    else RegEntries(if props[0].name == REG then out + Entries(props[0].value) else out, props[1..])
  }

  /** The given regions followed by the reg entries of these nodes themselves, in document order. */
  function OwnEntries(out: seq<Region>, f: Forest): seq<Region>
    decreases f
  {
    if f.Empty? then out else OwnEntries(RegEntries(out, f.props), f.next)
  }

  /** The first of these nodes with that base name, with what follows it; Empty if there is none. */
  function FirstNamed(f: Forest, base: seq<Byte>): Forest {
    if f.Empty? || BaseName(f.name) == base then f else FirstNamed(f.next, base)
  }

  /** The reserved regions of a tree: those of the direct children of its first top-level reserved-memory node. */
  function ReservedRegions(root: Forest): seq<Region>
    requires root.Tree?
  {
    var r := FirstNamed(root.kids, RESERVED);
    if r.Empty? then [] else OwnEntries([], r.kids)
  }

  /** dtb_walk_reserved_memory; reports lists the calls of the callback. */
  method WalkReservedMemory(mem: seq<Byte>, base: nat, ghost root: Forest) returns (reports: seq<Region>)
    requires base != 0 ==> HeaderAt(mem, base, root)
    ensures reports == if Usable(mem, base) then ReservedRegions(root) else []
  {
    reports := [];
    if base == 0 {
      return;
    }
    var ok, strings, cur, end := ReadHeader(mem, base);
    if ok {
      WalkIsSearch(root);
      reports := WalkBlock(mem, strings, cur, end, Flatten(root, Done));
    }
  }

  method WalkBlock(mem: seq<Byte>, strings: nat, start: nat, end: nat, ghost block: Tokens)
    returns (reports: seq<Region>)
    requires BlockAt(mem, strings, start, end, block)
    ensures reports == Walk(block, -1, 0, [])
  {
    hide Word, BigEndian, AfterName, AfterProp, StringAt, PropAt, Entries, BaseName;
    reports := [];
    var cur, state, depth := start, 0, -1;
    ghost var toks := block;
    while cur < end && state < 2
      invariant BlockAt(mem, strings, cur, end, toks)
      invariant Walk(toks, depth, state, reports) == Walk(block, -1, 0, [])
      decreases end as int - cur
    {
      var token := ReadWord(mem, cur);
      if token == BEGIN_NODE {
        var hit;
        cur, hit := EnterNode(mem, strings, cur, end, state == 0 && depth + 1 == 1, RESERVED, toks);
        depth := depth + 1;
        if hit {
          state := 1;
        }
        toks := toks.rest;
      } else if token == END_NODE {
        if state == 1 && depth == 1 {
          state := 2;
        }
        depth := depth - 1;
        cur := cur + 4;
        toks := toks.rest;
      } else if token == PROP {
        var len, isReg := EnterProp(mem, strings, cur, end, state == 1 && depth == 2, REG, toks);
        if isReg {
          reports := ReportEntries(mem, cur + 12, len, reports, toks.prop);
        }
        cur := Align4(cur + 12 + len);
        toks := toks.rest;
      } else if token == NOP {
        cur := cur + 4;
      } else {
        break;
      }
    }
  }

  /** Over the tokens of a whole tree the walk reports exactly the tree's reserved regions. */
  lemma WalkIsSearch(root: Forest)
    requires root.Tree? && root.next.Empty?
    ensures Walk(Flatten(root, Done), -1, 0, []) == ReservedRegions(root)
  {
    var tail := Close(Done);
    WalkProps(root.props, Flatten(root.kids, tail), 0, 0, []);
    WalkTop(root.kids, tail);
  }

  /** Properties report their entries in a direct child of reserved-memory, and nothing elsewhere. */
  lemma {:induction false} WalkProps(props: seq<Prop>, tail: Tokens, depth: int, state: nat, out: seq<Region>)
    requires state < 2
    ensures Walk(FlattenProps(props, tail), depth, state, out) ==
            Walk(tail, depth, state, if state == 1 && depth == 2 then RegEntries(out, props) else out)
    decreases |props|
  {
    if props != [] {
      WalkProps(props[1..], tail, depth, state,
                if state == 1 && depth == 2 && props[0].name == REG then out + Entries(props[0].value) else out);
    }
  }

  /** Whole subtrees are passed over while searching below the top level and below the direct children. */
  lemma {:induction false} WalkPast(f: Forest, tail: Tokens, depth: int, state: nat, out: seq<Region>)
    requires (state == 0 && depth >= 1) || (state == 1 && depth >= 2)
    ensures Walk(Flatten(f, tail), depth, state, out) == Walk(tail, depth, state, out)
  {
    if f.Tree? {
      var after := Flatten(f.next, tail);
      WalkProps(f.props, Flatten(f.kids, Close(after)), depth + 1, state, out);
      WalkPast(f.kids, Close(after), depth + 1, state, out);
      WalkPast(f.next, tail, depth, state, out);
    }
  }

  lemma {:induction false} WalkChildren(f: Forest, tail: Tokens, out: seq<Region>)
    ensures Walk(Flatten(f, tail), 1, 1, out) == Walk(tail, 1, 1, OwnEntries(out, f))
    decreases f
  {
    if f.Tree? {
      var after := Flatten(f.next, tail);
      var out' := RegEntries(out, f.props);
      WalkProps(f.props, Flatten(f.kids, Close(after)), 2, 1, out);
      WalkPast(f.kids, Close(after), 2, 1, out');
      WalkChildren(f.next, tail, out');
    }
  }

  lemma {:induction false} WalkTop(f: Forest, tail: Tokens)
    ensures var r := FirstNamed(f, RESERVED);
            Walk(Flatten(f, tail), 0, 0, []) == if r.Empty? then Walk(tail, 0, 0, []) else OwnEntries([], r.kids)
  {
    if f.Tree? {
      var after := Flatten(f.next, tail);
      var state := if BaseName(f.name) == RESERVED then 1 else 0;
      WalkProps(f.props, Flatten(f.kids, Close(after)), 1, state, []);
      if state == 1 {
        WalkChildren(f.kids, Close(after), []);
      } else {
        WalkPast(f.kids, Close(after), 1, 0, []);
        WalkTop(f.next, tail);
      }
    }
  }

  // ---- dtb_get_memory_region ----

  function MemoryWalk(toks: Tokens, depth: int, inMemory: bool): Option<Region> {
    match toks
    case Done => None
    case Begin(name, rest) => MemoryWalk(rest, depth + 1, depth + 1 == 1 && BaseName(name) == MEMORY)
    case Close(rest) => MemoryWalk(rest, depth - 1, false)
    case Property(prop, rest) =>
      if inMemory && prop.name == REG && |prop.value| >= 16 then Some(RegionAt(prop.value, 0))
      else MemoryWalk(rest, depth, inMemory)
  }

  /** The first entry of the first reg property long enough to hold one. */
  function FirstReg(props: seq<Prop>): Option<Region> {
    if props == [] then None
    else if props[0].name == REG && |props[0].value| >= 16 then Some(RegionAt(props[0].value, 0))
    else FirstReg(props[1..])
  }

  /** Of the nodes with base name memory, the first that has such a property, and its region. */
  function MemoryRegion(f: Forest): Option<Region> {
    if f.Empty? then None
    else if BaseName(f.name) == MEMORY && FirstReg(f.props).Some? then FirstReg(f.props)
    else MemoryRegion(f.next)
  }

  /** dtb_get_memory_region; a negative result leaves both outputs alone. */
  method GetMemoryRegion(mem: seq<Byte>, base: nat, base0: nat, size0: nat, ghost root: Forest)
    returns (r: int, b: nat, size: nat)
    requires base != 0 ==> HeaderAt(mem, base, root)
    ensures var region := if Usable(mem, base) then MemoryRegion(root.kids) else None;
            if region.Some? then r == 0 && Region(b, size) == region.value else r == -1 && b == base0 && size == size0
  {
    r, b, size := -1, base0, size0;
    if base == 0 {
      return;
    }
    var ok, strings, cur, end := ReadHeader(mem, base);
    if ok {
      MemoryIsSearch(root);
      r, b, size := ScanForMemory(mem, strings, cur, end, base0, size0, Flatten(root, Done));
    }
  }

  method ScanForMemory(mem: seq<Byte>, strings: nat, start: nat, end: nat, base0: nat, size0: nat, ghost block: Tokens)
    returns (r: int, b: nat, size: nat)
    requires BlockAt(mem, strings, start, end, block)
    ensures var region := MemoryWalk(block, -1, false);
            if region.Some? then r == 0 && Region(b, size) == region.value else r == -1 && b == base0 && size == size0
  {
    hide Word, BigEndian, AfterName, AfterProp, StringAt, PropAt, BaseName;
    r, b, size := -1, base0, size0;
    var cur := start;
    ghost var toks := block;
    var depth, inMemory := -1, false;
    while cur < end
      invariant BlockAt(mem, strings, cur, end, toks)
      invariant MemoryWalk(toks, depth, inMemory) == MemoryWalk(block, -1, false)
      decreases end as int - cur
    {
      var token := ReadWord(mem, cur);
      if token == BEGIN_NODE {
        cur, inMemory := EnterNode(mem, strings, cur, end, depth + 1 == 1, MEMORY, toks);
        depth := depth + 1;
        toks := toks.rest;
      } else if token == END_NODE {
        inMemory, depth := false, depth - 1;
        cur := cur + 4;
        toks := toks.rest;
      } else if token == PROP {
        var len, isReg := EnterProp(mem, strings, cur, end, inMemory, REG, toks);
        if isReg && len >= 16 {
          var region := ReadRegion(mem, cur + 12);
          RegionInValue(mem, cur + 12, toks.prop.value, 0);
          return 0, region.base, region.size;
        }
        cur := Align4(cur + 12 + len);
        toks := toks.rest;
      } else if token == NOP {
        cur := cur + 4;
      } else {
        break;
      }
    }
  }

  lemma MemoryIsSearch(root: Forest)
    requires root.Tree? && root.next.Empty?
    ensures MemoryWalk(Flatten(root, Done), -1, false) == MemoryRegion(root.kids)
  {
    MemoryProps(root.props, Flatten(root.kids, Close(Done)), 0, false);
    MemoryTop(root.kids, Done);
  }

  lemma {:induction false} MemoryProps(props: seq<Prop>, tail: Tokens, depth: int, inMemory: bool)
    ensures MemoryWalk(FlattenProps(props, tail), depth, inMemory) ==
            if inMemory && FirstReg(props).Some? then FirstReg(props) else MemoryWalk(tail, depth, inMemory)
  {
    if props != [] {
      MemoryProps(props[1..], tail, depth, inMemory);
    }
  }

  /** The children of a node below the top are passed over, up to and including its end token. */
  lemma {:induction false} MemoryPast(f: Forest, tail: Tokens, depth: int, inMemory: bool)
    requires depth >= 1
    ensures MemoryWalk(Flatten(f, Close(tail)), depth, inMemory) == MemoryWalk(tail, depth - 1, false)
  {
    if f.Tree? {
      var after := Flatten(f.next, Close(tail));
      MemoryProps(f.props, Flatten(f.kids, Close(after)), depth + 1, false);
      MemoryPast(f.kids, after, depth + 1, false);
      MemoryPast(f.next, tail, depth, false);
    }
  }

  lemma {:induction false} MemoryTop(f: Forest, tail: Tokens)
    ensures MemoryWalk(Flatten(f, Close(tail)), 0, false) ==
            if MemoryRegion(f).Some? then MemoryRegion(f) else MemoryWalk(tail, -1, false)
  {
    if f.Tree? {
      var after := Flatten(f.next, Close(tail));
      var inMemory := BaseName(f.name) == MEMORY;
      MemoryProps(f.props, Flatten(f.kids, Close(after)), 1, inMemory);
      MemoryPast(f.kids, after, 1, inMemory);
      MemoryTop(f.next, tail);
    }
  }

  // ---- _dtb_getprop ----

  /** How many components the path has, -1 for a string that is no path. */
  function Depth(path: seq<Byte>): int {
    if path == [] || path[0] != SLASH then -1 else if |path| == 1 then 0 else |Split(path[1..])|
  }

  /** The 63 characters of a component that the comparison looks at. */
  function Short(s: seq<Byte>): seq<Byte> {
    if |s| < 63 then s else s[..63]
  }

  function LastPart(path: seq<Byte>): seq<Byte>
    requires Depth(path) > 0
  {
    Split(path[1..])[Depth(path) - 1]
  }

  /** The node sits as deep as the path says and has the base name of the path's last component, which is not empty. */
  predicate IsTarget(path: seq<Byte>, depth: int, name: seq<Byte>) {
    depth >= 0 && depth == Depth(path) &&
    (depth > 0 ==> LastPart(path) != [] && BaseName(name) == Short(LastPart(path)))
  }

  lemma TargetPart(path: seq<Byte>)
    requires Depth(path) > 0
    ensures PathPart(path, Depth(path) - 1) == if LastPart(path) == [] then None else Some(LastPart(path))
  {
    SegmentOfSplit(path[1..], Depth(path) - 1);
  }

  /** Past a begin token; hit tells whether the node, at this depth, is looked for and is a target of the path. */
  method EnterTarget(mem: seq<Byte>, strings: nat, p: nat, end: nat, look: bool, depth: int, wanted: int,
                     path: seq<Byte>, ghost toks: Tokens)
    returns (cur: nat, hit: bool)
    requires p < end && BlockAt(mem, strings, p, end, toks) && Word(mem, p) == BEGIN_NODE && wanted == Depth(path)
    ensures toks.Begin? && cur > p && BlockAt(mem, strings, cur, end, toks.rest)
    ensures hit <==> look && IsTarget(path, depth, toks.name)
  {
    cur := SkipName(mem, p, toks.name);
    hit := false;
    if look {
      hit := TargetHere(mem, p + 4, depth, wanted, path, toks.name);
    }
  }

  method TargetHere(mem: seq<Byte>, nodeName: nat, depth: int, wanted: int, path: seq<Byte>, ghost name: seq<Byte>)
    returns (hit: bool)
    requires StringAt(mem, nodeName, name) && wanted == Depth(path)
    ensures hit <==> IsTarget(path, depth, name)
  {
    hit := false;
    if depth == 0 {
      hit := wanted == 0;
    } else {
      var found, start, len := PathSegment(path, depth - 1);
      if depth == wanted && depth > 0 {
        TargetPart(path);
      }
      if found {
        var copyLen := if len < 63 then len else 63;
        var seg := path[start..start + copyLen];
        ShortCopy(path, start, len);
        var named := NodeNameMatch(mem, nodeName, seg, name);
        hit := named && depth == wanted;
      }
    }
  }

  lemma ShortCopy(path: seq<Byte>, start: nat, len: nat)
    requires start + len <= |path|
    ensures path[start..start + if len < 63 then len else 63] == Short(path[start..start + len])
  {
    assert len >= 63 ==> path[start..start + len][..63] == path[start..start + 63];
  }

  /** The property the search ends with, from the remaining tokens on; matched is the depth of the target or -1. */
  function Search(toks: Tokens, depth: int, matched: int, path: seq<Byte>, name: seq<Byte>): Option<Prop> {
    match toks
    case Done => None
    case Begin(node, rest) =>
      Search(rest, depth + 1, if matched < 0 && IsTarget(path, depth + 1, node) then depth + 1 else matched, path, name)
    case Close(rest) => Search(rest, depth - 1, if matched == depth then -1 else matched, path, name)
    case Property(prop, rest) =>
      if matched >= 0 && prop.name == name then Some(prop) else Search(rest, depth, matched, path, name)
  }

  /** All properties of these nodes and their descendants, in document order. */
  function Under(f: Forest): seq<Prop> {
    if f.Empty? then [] else f.props + Under(f.kids) + Under(f.next)
  }

  /** All properties in the subtrees of the targets of the path, in document order; the nodes are at this depth. */
  function Candidates(f: Forest, depth: int, path: seq<Byte>): seq<Prop> {
    if f.Empty? then []
    else (if IsTarget(path, depth, f.name) then f.props + Under(f.kids) else Candidates(f.kids, depth + 1, path))
         + Candidates(f.next, depth, path)
  }

  function First(props: seq<Prop>, name: seq<Byte>): Option<Prop> {
    if props == [] then None else if props[0].name == name then Some(props[0]) else First(props[1..], name)
  }

  function OrElse<T>(a: Option<T>, b: Option<T>): Option<T> {
    if a.Some? then a else b
  }

  /** (int) of a 32-bit unsigned length. */
  function AsInt(n: nat): int {
    if n % 0x1_0000_0000 < 0x8000_0000 then n % 0x1_0000_0000 else n % 0x1_0000_0000 - 0x1_0000_0000
  }

  lemma ShortLength(n: nat)
    ensures n < 0x8000_0000 ==> AsInt(n) == n
    ensures -0x8000_0000 <= AsInt(n) < 0x8000_0000 && (n - AsInt(n)) % 0x1_0000_0000 == 0
  {
  }

  /** The value of the property stands at ptr, and len is its length unless that does not fit an int. */
  predicate Answered(mem: seq<Byte>, ptr: nat, len: int, prop: Prop) {
    && ptr + |prop.value| <= |mem| && mem[ptr..ptr + |prop.value|] == prop.value
    && (|prop.value| < 0x8000_0000 ==> len == |prop.value|)
  }

  /** _dtb_getprop: the address of the value, 0 if there is none, and its length through the pointer. */
  method GetProp(mem: seq<Byte>, base: nat, path: Option<seq<Byte>>, name: Option<seq<Byte>>, len0: int,
                 ghost root: Forest)
    returns (ptr: nat, len: int)
    requires base != 0 ==> HeaderAt(mem, base, root)
    requires name.Some? ==> NulFree(name.value)
    ensures if Usable(mem, base) && path.Some? && name.Some? then
              var found := First(Candidates(root, 0, path.value), name.value);
              if found.Some? then ptr == found.value.at && len == AsInt(|found.value.value|) else ptr == 0 && len == 0
            else ptr == 0 && len == len0
    ensures Usable(mem, base) && path.Some? && name.Some? ==>
              var found := First(Candidates(root, 0, path.value), name.value);
              found.Some? ==> Answered(mem, ptr, len, found.value)
  {
    ptr, len := 0, len0;
    if base == 0 || path.None? || name.None? {
      return;
    }
    var ok, strings, cur, end := ReadHeader(mem, base);
    if ok {
      SearchIsLookup(root, path.value, name.value);
      ptr, len := SearchBlock(mem, strings, cur, end, path.value, name.value, Flatten(root, Done));
    }
  }

  method SearchBlock(mem: seq<Byte>, strings: nat, start: nat, end: nat, path: seq<Byte>, name: seq<Byte>,
                     ghost block: Tokens)
    returns (ptr: nat, len: int)
    requires BlockAt(mem, strings, start, end, block) && NulFree(name)
    ensures var found := Search(block, -1, -1, path, name);
            if found.Some? then ptr == found.value.at && len == AsInt(|found.value.value|) else ptr == 0 && len == 0
    ensures var found := Search(block, -1, -1, path, name);
            found.Some? ==> Answered(mem, ptr, len, found.value)
  {
    hide Word, BigEndian, AfterName, AfterProp, StringAt, PropAt, IsTarget, AsInt;
    ptr, len := 0, 0;
    var wanted := PathDepth(path);
    var cur, depth, matched := start, -1, -1;
    ghost var toks := block;
    while cur < end
      invariant BlockAt(mem, strings, cur, end, toks)
      invariant Search(toks, depth, matched, path, name) == Search(block, -1, -1, path, name)
      decreases end as int - cur
    {
      var token := ReadWord(mem, cur);
      if token == BEGIN_NODE {
        var hit;
        cur, hit := EnterTarget(mem, strings, cur, end, matched < 0, depth + 1, wanted, path, toks);
        depth := depth + 1;
        if hit {
          matched := depth;
        }
        toks := toks.rest;
      } else if token == END_NODE {
        if matched == depth {
          matched := -1;
        }
        depth := depth - 1;
        cur := cur + 4;
        toks := toks.rest;
      } else if token == PROP {
        var propLen, eq := EnterProp(mem, strings, cur, end, matched >= 0, name, toks);
        if eq {
          ShortLength(propLen);
          return cur + 12, AsInt(propLen);
        }
        cur := Align4(cur + 12 + propLen);
        toks := toks.rest;
      } else if token == NOP {
        cur := cur + 4;
      } else {
        break;
      }
    }
  }

  /** Over the tokens of a whole tree the search finds the first property of the name among the candidates. */
  lemma SearchIsLookup(root: Forest, path: seq<Byte>, name: seq<Byte>)
    requires root.Tree? && root.next.Empty?
    ensures Search(Flatten(root, Done), -1, -1, path, name) == First(Candidates(root, 0, path), name)
  {
    SearchOutside(root, Done, 0, path, name);
  }

  lemma {:induction false} FirstConcat(a: seq<Prop>, b: seq<Prop>, name: seq<Byte>)
    ensures First(a + b, name) == OrElse(First(a, name), First(b, name))
  {
    if a == [] {
      assert a + b == b;
    } else {
      assert (a + b)[1..] == a[1..] + b;
      FirstConcat(a[1..], b, name);
    }
  }

  lemma {:induction false} SearchProps(props: seq<Prop>, tail: Tokens, depth: int, matched: int, path: seq<Byte>,
                                       name: seq<Byte>)
    ensures Search(FlattenProps(props, tail), depth, matched, path, name) ==
            if matched >= 0 then OrElse(First(props, name), Search(tail, depth, matched, path, name))
            else Search(tail, depth, matched, path, name)
  {
    if props != [] {
      SearchProps(props[1..], tail, depth, matched, path, name);
    }
  }

  /** Inside a target every property counts, at whatever depth. */
  lemma {:induction false} SearchInside(f: Forest, tail: Tokens, depth: int, matched: int, path: seq<Byte>,
                                        name: seq<Byte>)
    requires 0 <= matched <= depth
    ensures Search(Flatten(f, tail), depth, matched, path, name) ==
            OrElse(First(Under(f), name), Search(tail, depth, matched, path, name))
  {
    if f.Tree? {
      var after := Flatten(f.next, tail);
      SearchProps(f.props, Flatten(f.kids, Close(after)), depth + 1, matched, path, name);
      SearchInside(f.kids, Close(after), depth + 1, matched, path, name);
      SearchInside(f.next, tail, depth, matched, path, name);
      FirstConcat(f.props, Under(f.kids), name);
      FirstConcat(f.props + Under(f.kids), Under(f.next), name);
    }
  }

  lemma {:induction false} SearchOutside(f: Forest, tail: Tokens, depth: int, path: seq<Byte>, name: seq<Byte>)
    requires depth >= 0
    ensures Search(Flatten(f, tail), depth - 1, -1, path, name) ==
            OrElse(First(Candidates(f, depth, path), name), Search(tail, depth - 1, -1, path, name))
  {
    if f.Tree? {
      var after := Flatten(f.next, tail);
      var hit := IsTarget(path, depth, f.name);
      var here := if hit then f.props + Under(f.kids) else Candidates(f.kids, depth + 1, path);
      SearchProps(f.props, Flatten(f.kids, Close(after)), depth, if hit then depth else -1, path, name);
      if hit {
        SearchInside(f.kids, Close(after), depth, depth, path, name);
        FirstConcat(f.props, Under(f.kids), name);
      } else {
        SearchOutside(f.kids, Close(after), depth + 1, path, name);
      }
      SearchOutside(f.next, tail, depth, path, name);
      FirstConcat(here, Candidates(f.next, depth, path), name);
    }
  }
}
