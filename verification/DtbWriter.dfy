/** Writing a tree as a blob, and that what was written is read back. */
module DtbWriter {
  import opened Memory
  import opened Dtb

  /** n as a 32-bit big-endian word, digit by digit. */
  function ToBig(n: nat, k: nat): (s: seq<Byte>)
    ensures |s| == k
  {
    if k == 0 then [] else ToBig(n / 256, k - 1) + [n % 256]
  }

  function WriteBegin(name: seq<Byte>): seq<Byte> {
    Padded(ToBig(BEGIN_NODE, 4) + name + [0])
  }

  function WriteProp(prop: Prop, nameoff: nat): seq<Byte> {
    Padded(ToBig(PROP, 4) + ToBig(|prop.value|, 4) + ToBig(nameoff, 4) + prop.value)
  }

  /** The strings block: the names, each with its terminating NUL. */
  function WriteStrings(names: seq<seq<Byte>>): seq<Byte> {
    if names == [] then [] else names[0] + [0] + WriteStrings(names[1..])
  }

  /** Where a name stands in the strings block. */
  function NameOffset(names: seq<seq<Byte>>, name: seq<Byte>): nat {
    if names == [] || names[0] == name then 0 else |names[0]| + 1 + NameOffset(names[1..], name)
  }

  /** The structure block: token behind token, then the end token. */
  function WriteTokens(toks: Tokens, names: seq<seq<Byte>>): seq<Byte> {
    match toks
    case Done => ToBig(9, 4)
    case Begin(name, rest) => WriteBegin(name) + WriteTokens(rest, names)
    case Close(rest) => ToBig(END_NODE, 4) + WriteTokens(rest, names)
    case Property(prop, rest) => WriteProp(prop, NameOffset(names, prop.name)) + WriteTokens(rest, names)
  }

  // ---- where the values come to stand ----

  /** The tokens as they are written from p on: each property with the address of its value. */
  function Relocate(toks: Tokens, p: nat): Tokens {
    match toks
    case Done => Done
    case Begin(name, rest) => Begin(name, Relocate(rest, AfterName(p, name)))
    case Close(rest) => Close(Relocate(rest, p + 4))
    case Property(prop, rest) => Property(prop.(at := p + 12), Relocate(rest, AfterProp(p, prop)))
  }

  function EndProps(props: seq<Prop>, p: nat): nat {
    if props == [] then p else EndProps(props[1..], AfterProp(p, props[0]))
  }

  function PlaceProps(props: seq<Prop>, p: nat): seq<Prop> {
    if props == [] then [] else [props[0].(at := p + 12)] + PlaceProps(props[1..], AfterProp(p, props[0]))
  }

  function EndForest(f: Forest, p: nat): nat {
    match f
    case Empty => p
    case Tree(name, props, kids, next) => EndForest(next, EndForest(kids, EndProps(props, AfterName(p, name))) + 4)
  }

  /** The tree as it is written from p on: the same nodes and properties, with the addresses of their values. */
  function PlaceForest(f: Forest, p: nat): Forest {
    match f
    case Empty => Empty
    case Tree(name, props, kids, next) =>
      var p1 := AfterName(p, name);
      var p2 := EndProps(props, p1);
      Tree(name, PlaceProps(props, p1), PlaceForest(kids, p2), PlaceForest(next, EndForest(kids, p2) + 4))
  }

  /** The tree without the addresses. */
  function Bare(f: Forest): Forest {
    match f
    case Empty => Empty
    case Tree(name, props, kids, next) => Tree(name, BareProps(props), Bare(kids), Bare(next))
  }

  function BareProps(props: seq<Prop>): seq<Prop> {
    if props == [] then [] else [props[0].(at := 0)] + BareProps(props[1..])
  }

  lemma {:induction false} PlaceKeepsProps(props: seq<Prop>, p: nat)
    ensures BareProps(PlaceProps(props, p)) == BareProps(props)
  {
    if props != [] {
      PlaceKeepsProps(props[1..], AfterProp(p, props[0]));
      assert PlaceProps(props, p)[1..] == PlaceProps(props[1..], AfterProp(p, props[0]));
    }
  }

  /** Placing a tree fills in addresses and changes nothing else. */
  lemma {:induction false} PlaceKeepsTree(f: Forest, p: nat)
    ensures Bare(PlaceForest(f, p)) == Bare(f)
  {
    if f.Tree? {
      var p1 := AfterName(p, f.name);
      var p2 := EndProps(f.props, p1);
      PlaceKeepsProps(f.props, p1);
      PlaceKeepsTree(f.kids, p2);
      PlaceKeepsTree(f.next, EndForest(f.kids, p2) + 4);
    }
  }

  lemma {:induction false} RelocateProps(props: seq<Prop>, tail: Tokens, p: nat)
    ensures Relocate(FlattenProps(props, tail), p) ==
            FlattenProps(PlaceProps(props, p), Relocate(tail, EndProps(props, p)))
  {
    if props != [] {
      RelocateProps(props[1..], tail, AfterProp(p, props[0]));
      assert PlaceProps(props, p)[1..] == PlaceProps(props[1..], AfterProp(p, props[0]));
    }
  }

  lemma {:induction false} RelocateForest(f: Forest, tail: Tokens, p: nat)
    ensures Relocate(Flatten(f, tail), p) == Flatten(PlaceForest(f, p), Relocate(tail, EndForest(f, p)))
  {
    if f.Tree? {
      var p1 := AfterName(p, f.name);
      var p2 := EndProps(f.props, p1);
      var after := Flatten(f.next, tail);
      RelocateProps(f.props, Flatten(f.kids, Close(after)), p1);
      RelocateForest(f.kids, Close(after), p2);
      RelocateForest(f.next, tail, EndForest(f.kids, p2) + 4);
    }
  }

  // ---- a written block ----

  /**
   * The tokens stand written one behind the other from p to end, each at a 32-bit boundary, after them
   * the end token. Names have no NUL, sizes fit 32 bits, and the names tell where a property's name stands
   * in the strings block.
   */
  predicate WrittenAt(mem: seq<Byte>, strings: nat, p: nat, end: nat, toks: Tokens, names: seq<seq<Byte>>)
    decreases toks
  {
    && p % 4 == 0
    && match toks
       case Done => Holds(mem, p, ToBig(9, 4)) && end == p + 4
       case Begin(name, rest) =>
         BeginWritten(mem, p, name) && WrittenAt(mem, strings, AfterName(p, name), end, rest, names)
       case Close(rest) => Holds(mem, p, ToBig(END_NODE, 4)) && WrittenAt(mem, strings, p + 4, end, rest, names)
       case Property(prop, rest) =>
         PropWritten(mem, strings, p, prop, NameOffset(names, prop.name)) &&
           WrittenAt(mem, strings, AfterProp(p, prop), end, rest, names)
  }

  predicate BeginWritten(mem: seq<Byte>, p: nat, name: seq<Byte>) {
    NulFree(name) && Holds(mem, p, WriteBegin(name))
  }

  predicate PropWritten(mem: seq<Byte>, strings: nat, p: nat, prop: Prop, nameoff: nat) {
    && Holds(mem, p, WriteProp(prop, nameoff)) && prop.at == p + 12
    && |prop.value| < Pow256(4) && nameoff < Pow256(4) && StringAt(mem, strings + nameoff, prop.name)
  }

  lemma {:induction false} BigRoundTrip(mem: seq<Byte>, p: nat, n: nat, k: nat)
    requires Holds(mem, p, ToBig(n, k)) && n < Pow256(k)
    ensures BigEndian(mem, p, k) == n
  {
    if k > 0 {
      HoldsSplit(mem, p, ToBig(n / 256, k - 1), [n % 256]);
      BigRoundTrip(mem, p, n / 256, k - 1);
      assert mem[p + (k - 1)..p + (k - 1) + 1][0] == n % 256;
    }
  }

  lemma WrittenWord(mem: seq<Byte>, p: nat, n: nat)
    requires Holds(mem, p, ToBig(n, 4)) && (n < 256 || n < Pow256(4))
    ensures Word(mem, p) == n
  {
    assert Pow256(2) >= 256 && Pow256(4) == 256 * Pow256(3);
    BigRoundTrip(mem, p, n, 4);
  }

  lemma WrittenBegin(mem: seq<Byte>, p: nat, name: seq<Byte>)
    requires p % 4 == 0 && BeginWritten(mem, p, name)
    ensures Word(mem, p) == BEGIN_NODE && StringAt(mem, p + 4, name) && AfterName(p, name) == p + |WriteBegin(name)|
  {
    var w := ToBig(BEGIN_NODE, 4);
    HoldsPrefix(mem, p, WriteBegin(name), w + name + [0]);
    HoldsSplit(mem, p, w + name, [0]);
    HoldsSplit(mem, p, w, name);
    WrittenWord(mem, p, BEGIN_NODE);
    var q := p + 4 + |name|;
    assert mem[q..q + 1][0] == 0;
    AlignShift(p, 4 + |name| + 1);
  }

  lemma PropPieces(mem: seq<Byte>, p: nat, prop: Prop, nameoff: nat)
    requires Holds(mem, p, WriteProp(prop, nameoff))
    ensures Holds(mem, p, ToBig(PROP, 4)) && Holds(mem, p + 4, ToBig(|prop.value|, 4))
    ensures Holds(mem, p + 8, ToBig(nameoff, 4)) && Holds(mem, p + 12, prop.value)
  {
    var tag, len, off := ToBig(PROP, 4), ToBig(|prop.value|, 4), ToBig(nameoff, 4);
    HoldsPrefix(mem, p, WriteProp(prop, nameoff), tag + len + off + prop.value);
    HoldsSplit(mem, p, tag + len + off, prop.value);
    HoldsSplit(mem, p, tag + len, off);
    HoldsSplit(mem, p, tag, len);
  }

  lemma PropLength(p: nat, prop: Prop, nameoff: nat)
    requires p % 4 == 0
    ensures AfterProp(p, prop) == p + |WriteProp(prop, nameoff)|
  {
    AlignShift(p, 12 + |prop.value|);
  }

  lemma WrittenProp(mem: seq<Byte>, strings: nat, p: nat, prop: Prop, nameoff: nat)
    requires p % 4 == 0 && PropWritten(mem, strings, p, prop, nameoff)
    ensures Word(mem, p) == PROP && PropAt(mem, strings, p, prop) &&
            AfterProp(p, prop) == p + |WriteProp(prop, nameoff)|
  {
    PropPieces(mem, p, prop, nameoff);
    WrittenWord(mem, p, PROP);
    WrittenWord(mem, p + 4, |prop.value|);
    WrittenWord(mem, p + 8, nameoff);
    PropLength(p, prop, nameoff);
  }

  lemma {:induction false} WrittenEnd(mem: seq<Byte>, strings: nat, p: nat, end: nat, toks: Tokens,
                                      names: seq<seq<Byte>>)
    requires WrittenAt(mem, strings, p, end, toks, names)
    ensures p + 4 <= end <= |mem|
    decreases toks
  {
    match toks
    case Done =>
    case Begin(name, rest) => WrittenEnd(mem, strings, AfterName(p, name), end, rest, names);
    case Close(rest) => WrittenEnd(mem, strings, p + 4, end, rest, names);
    case Property(prop, rest) => WrittenEnd(mem, strings, AfterProp(p, prop), end, rest, names);
  }

  /** A written block is read as the tokens it was written from. */
  lemma {:induction false} WrittenBlock(mem: seq<Byte>, strings: nat, p: nat, end: nat, toks: Tokens,
                                        names: seq<seq<Byte>>)
    requires WrittenAt(mem, strings, p, end, toks, names)
    ensures BlockAt(mem, strings, p, end, toks)
    decreases toks
  {
    match toks
    case Done => EndReads(mem, strings, p);
    case Begin(name, rest) =>
      WrittenBlock(mem, strings, AfterName(p, name), end, rest, names);
      BeginReads(mem, strings, p, end, toks, names);
    case Close(rest) =>
      WrittenBlock(mem, strings, p + 4, end, rest, names);
      CloseReads(mem, strings, p, end, toks, names);
    case Property(prop, rest) =>
      WrittenBlock(mem, strings, AfterProp(p, prop), end, rest, names);
      PropReads(mem, strings, p, end, toks, names);
  }

  lemma EndReads(mem: seq<Byte>, strings: nat, p: nat)
    requires Holds(mem, p, ToBig(9, 4))
    ensures BlockAt(mem, strings, p, p + 4, Done)
  {
    WrittenWord(mem, p, 9);
  }

  lemma BeginReads(mem: seq<Byte>, strings: nat, p: nat, end: nat, toks: Tokens, names: seq<seq<Byte>>)
    requires WrittenAt(mem, strings, p, end, toks, names) && toks.Begin?
    requires BlockAt(mem, strings, AfterName(p, toks.name), end, toks.rest)
    ensures BlockAt(mem, strings, p, end, toks)
  {
    WrittenEnd(mem, strings, p, end, toks, names);
    WrittenBegin(mem, p, toks.name);
  }

  lemma PropReads(mem: seq<Byte>, strings: nat, p: nat, end: nat, toks: Tokens, names: seq<seq<Byte>>)
    requires WrittenAt(mem, strings, p, end, toks, names) && toks.Property?
    requires BlockAt(mem, strings, AfterProp(p, toks.prop), end, toks.rest)
    ensures BlockAt(mem, strings, p, end, toks)
  {
    WrittenEnd(mem, strings, p, end, toks, names);
    WrittenProp(mem, strings, p, toks.prop, NameOffset(names, toks.prop.name));
  }

  lemma CloseReads(mem: seq<Byte>, strings: nat, p: nat, end: nat, toks: Tokens, names: seq<seq<Byte>>)
    requires WrittenAt(mem, strings, p, end, toks, names) && toks.Close?
    requires BlockAt(mem, strings, p + 4, end, toks.rest)
    ensures BlockAt(mem, strings, p, end, toks)
  {
    WrittenEnd(mem, strings, p, end, toks, names);
    WrittenWord(mem, p, END_NODE);
  }

  // ---- a written blob ----

  /** Node names have no NUL, values and offsets fit 32 bits, and the strings block has every property's name. */
  predicate Storable(toks: Tokens, names: seq<seq<Byte>>) {
    match toks
    case Done => true
    case Begin(name, rest) => NulFree(name) && Storable(rest, names)
    case Close(rest) => Storable(rest, names)
    case Property(prop, rest) => prop.name in names && |prop.value| < Pow256(4) && Storable(rest, names)
  }

  lemma {:induction false} NameHeld(mem: seq<Byte>, strings: nat, names: seq<seq<Byte>>, name: seq<Byte>)
    requires Holds(mem, strings, WriteStrings(names)) && name in names &&
             forall i :: 0 <= i < |names| ==> NulFree(names[i])
    ensures NameOffset(names, name) < |WriteStrings(names)| && StringAt(mem, strings + NameOffset(names, name), name)
    decreases |names|
  {
    var first, rest := names[0], WriteStrings(names[1..]);
    HoldsSplit(mem, strings, first + [0], rest);
    HoldsSplit(mem, strings, first, [0]);
    if first == name {
      StringHeld(mem, strings, name);
    } else {
      assert name in names[1..];
      NameHeld(mem, strings + |first| + 1, names[1..], name);
    }
  }

  /** The strings block stands at this address. */
  predicate StringsHeld(mem: seq<Byte>, strings: nat, names: seq<seq<Byte>>) {
    && Holds(mem, strings, WriteStrings(names)) && |WriteStrings(names)| < Pow256(4)
    && forall i :: 0 <= i < |names| ==> NulFree(names[i])
  }

  lemma BeginHeld(mem: seq<Byte>, p: nat, name: seq<Byte>, rest: seq<Byte>)
    requires p % 4 == 0 && Holds(mem, p, WriteBegin(name) + rest) && NulFree(name)
    ensures BeginWritten(mem, p, name) && Holds(mem, AfterName(p, name), rest)
    ensures AfterName(p, name) + |rest| == p + |WriteBegin(name) + rest|
  {
    HoldsSplit(mem, p, WriteBegin(name), rest);
    WrittenBegin(mem, p, name);
  }

  lemma PropHeld(mem: seq<Byte>, strings: nat, p: nat, prop: Prop, names: seq<seq<Byte>>, rest: seq<Byte>)
    requires StringsHeld(mem, strings, names) && prop.name in names && |prop.value| < Pow256(4)
    requires p % 4 == 0 && Holds(mem, p, WriteProp(prop, NameOffset(names, prop.name)) + rest)
    ensures PropWritten(mem, strings, p, prop.(at := p + 12), NameOffset(names, prop.name))
    ensures Holds(mem, AfterProp(p, prop), rest)
    ensures AfterProp(p, prop) + |rest| == p + |WriteProp(prop, NameOffset(names, prop.name)) + rest|
  {
    var nameoff := NameOffset(names, prop.name);
    HoldsSplit(mem, p, WriteProp(prop, nameoff), rest);
    PropLength(p, prop, nameoff);
    NameHeld(mem, strings, names, prop.name);
  }

  lemma {:induction false} TokensHeld(mem: seq<Byte>, strings: nat, p: nat, end: nat, toks: Tokens,
                                      names: seq<seq<Byte>>)
    requires Storable(toks, names) && StringsHeld(mem, strings, names)
    requires p % 4 == 0 && Holds(mem, p, WriteTokens(toks, names)) && end == p + |WriteTokens(toks, names)|
    ensures WrittenAt(mem, strings, p, end, Relocate(toks, p), names)
    decreases toks
  {
    match toks
    case Done =>
    case Begin(name, rest) =>
      BeginHeld(mem, p, name, WriteTokens(rest, names));
      TokensHeld(mem, strings, AfterName(p, name), end, rest, names);
    case Close(rest) =>
      HoldsSplit(mem, p, ToBig(END_NODE, 4), WriteTokens(rest, names));
      TokensHeld(mem, strings, p + 4, end, rest, names);
    case Property(prop, rest) =>
      PropHeld(mem, strings, p, prop, names, WriteTokens(rest, names));
      TokensHeld(mem, strings, AfterProp(p, prop), end, rest, names);
      PropThen(mem, strings, p, end, prop, Relocate(rest, AfterProp(p, prop)), names);
  }

  lemma PropThen(mem: seq<Byte>, strings: nat, p: nat, end: nat, prop: Prop, rest: Tokens, names: seq<seq<Byte>>)
    requires p % 4 == 0 && PropWritten(mem, strings, p, prop.(at := p + 12), NameOffset(names, prop.name))
    requires WrittenAt(mem, strings, AfterProp(p, prop), end, rest, names)
    ensures WrittenAt(mem, strings, p, end, Property(prop.(at := p + 12), rest), names)
  {
    hide PropWritten, Holds, NameOffset;
    assert AfterProp(p, prop.(at := p + 12)) == AfterProp(p, prop);
  }

  /** What a blob holds besides the tree: the header's other words and the memory reservation block. */
  datatype Extra = Extra(total: seq<Byte>, words: seq<Byte>, reservations: seq<Byte>) {
    predicate Valid() {
      |total| == 4 && |words| == 20 && |reservations| % 4 == 0
    }
  }

  /** Where the structure block begins. */
  function StructOffset(x: Extra): nat {
    40 + |x.reservations|
  }

  /** The structure block of a tree. */
  function WriteStruct(root: Forest, names: seq<seq<Byte>>): seq<Byte> {
    WriteTokens(Flatten(root, Done), names)
  }

  /** The header of section 5.2, the memory reservation block, the structure block and the strings block. */
  function WriteBlob(root: Forest, names: seq<seq<Byte>>, x: Extra): seq<Byte>
    requires x.Valid()
  {
    var n, offset := |WriteStruct(root, names)|, StructOffset(x);
    WriteHeader(offset, n, x) + x.reservations + WriteStruct(root, names) + WriteStrings(names)
  }

  function WriteHeader(offset: nat, n: nat, x: Extra): (h: seq<Byte>)
    requires x.Valid()
    ensures |h| == 40
  {
    ToBig(MAGIC, 4) + x.total + ToBig(offset, 4) + ToBig(offset + n, 4) + x.words + ToBig(n, 4)
  }

  lemma HeaderHeld(mem: seq<Byte>, base: nat, offset: nat, n: nat, x: Extra)
    requires x.Valid() && Holds(mem, base, WriteHeader(offset, n, x)) && offset + n < Pow256(4)
    ensures base + 40 <= |mem| && HeaderWords(mem, base, offset, n)
  {
    HeaderPieces(mem, base, offset, n, x);
    MagicFits();
    WrittenWord(mem, base, MAGIC);
    WrittenWord(mem, base + 8, offset);
    WrittenWord(mem, base + 12, offset + n);
    WrittenWord(mem, base + 36, n);
  }

  lemma HeaderPieces(mem: seq<Byte>, base: nat, offset: nat, n: nat, x: Extra)
    requires x.Valid() && Holds(mem, base, WriteHeader(offset, n, x))
    ensures Holds(mem, base, ToBig(MAGIC, 4)) && Holds(mem, base + 8, ToBig(offset, 4))
    ensures Holds(mem, base + 12, ToBig(offset + n, 4)) && Holds(mem, base + 36, ToBig(n, 4))
  {
    var m, a, b, c := ToBig(MAGIC, 4), ToBig(offset, 4), ToBig(offset + n, 4), ToBig(n, 4);
    HoldsSplit(mem, base, m + x.total + a + b + x.words, c);
    HoldsSplit(mem, base, m + x.total + a + b, x.words);
    HoldsSplit(mem, base, m + x.total + a, b);
    HoldsSplit(mem, base, m + x.total, a);
    HoldsSplit(mem, base, m, x.total);
  }

  lemma MagicFits()
    ensures MAGIC < Pow256(4)
  {
    assert Pow256(2) == 256 * Pow256(1) && Pow256(4) == 256 * (256 * Pow256(2));
  }

  /** A blob written at an aligned address is read as the tree it was written from, addresses filled in. */
  lemma WrittenBlob(mem: seq<Byte>, base: nat, root: Forest, names: seq<seq<Byte>>, x: Extra)
    requires root.Tree? && root.next.Empty? && x.Valid() && base % 4 == 0
    requires Storable(Flatten(root, Done), names) && forall i :: 0 <= i < |names| ==> NulFree(names[i])
    requires |WriteBlob(root, names, x)| < Pow256(4) && Holds(mem, base, WriteBlob(root, names, x))
    ensures var placed := PlaceForest(root, base + StructOffset(x));
            HeaderAt(mem, base, placed) && Usable(mem, base) == (base != 0) && Bare(placed) == Bare(root)
  {
    hide WriteBlob, BlockAt, Storable, Word;
    var placed := PlaceForest(root, base + StructOffset(x));
    PlaceKeepsTree(root, base + StructOffset(x));
    var n := BlobBlocks(mem, base, root, names, x, placed);
    PlaceKeepsRoot(root, base + StructOffset(x));
    HeaderReads(mem, base, placed, StructOffset(x), n);
  }

  lemma PlaceKeepsRoot(root: Forest, p: nat)
    requires root.Tree? && root.next.Empty?
    ensures PlaceForest(root, p).Tree? && PlaceForest(root, p).next.Empty?
  {
  }

  lemma BlobBlocks(mem: seq<Byte>, base: nat, root: Forest, names: seq<seq<Byte>>, x: Extra, placed: Forest)
    returns (n: nat)
    requires x.Valid() && base % 4 == 0 && placed == PlaceForest(root, base + StructOffset(x))
    requires Storable(Flatten(root, Done), names) && forall i :: 0 <= i < |names| ==> NulFree(names[i])
    requires |WriteBlob(root, names, x)| < Pow256(4) && Holds(mem, base, WriteBlob(root, names, x))
    ensures base + 40 <= |mem| && HeaderWords(mem, base, StructOffset(x), n)
    ensures TreeAt(mem, base + (StructOffset(x) + n), base + StructOffset(x), base + StructOffset(x) + n, placed)
  {
    hide WriteBlob, WriteStruct, WriteStrings, HeaderWords, TreeAt, PlaceForest, Flatten, Storable, Holds, Pow256;
    hide WriteHeader, NulFree;
    var offset := StructOffset(x);
    n := BlobParts(mem, base, root, names, x);
    HeaderHeld(mem, base, offset, n, x);
    StructHeld(mem, base + (offset + n), base + offset, base + offset + n, root, names);
  }

  lemma BlobParts(mem: seq<Byte>, base: nat, root: Forest, names: seq<seq<Byte>>, x: Extra) returns (n: nat)
    requires x.Valid() && Holds(mem, base, WriteBlob(root, names, x)) && |WriteBlob(root, names, x)| < Pow256(4)
    ensures var offset := StructOffset(x);
            && n == |WriteStruct(root, names)| && Holds(mem, base, WriteHeader(offset, n, x))
            && Holds(mem, base + offset, WriteStruct(root, names))
            && Holds(mem, base + (offset + n), WriteStrings(names))
            && offset + n + |WriteStrings(names)| < Pow256(4)
  {
    n := |WriteStruct(root, names)|;
    FourParts(mem, base, WriteHeader(StructOffset(x), n, x), x.reservations, WriteStruct(root, names),
              WriteStrings(names));
  }

  /** The block from p to end reads as the tree. */
  predicate TreeAt(mem: seq<Byte>, strings: nat, p: nat, end: nat, root: Forest) {
    BlockAt(mem, strings, p, end, Flatten(root, Done))
  }

  lemma StructHeld(mem: seq<Byte>, strings: nat, p: nat, end: nat, root: Forest, names: seq<seq<Byte>>)
    requires Storable(Flatten(root, Done), names) && StringsHeld(mem, strings, names)
    requires p % 4 == 0 && Holds(mem, p, WriteStruct(root, names)) && end == p + |WriteStruct(root, names)|
    ensures TreeAt(mem, strings, p, end, PlaceForest(root, p))
  {
    TokensRead(mem, strings, p, end, Flatten(root, Done), names);
    RelocateForest(root, Done, p);
  }

  /** Tokens that stand written are read, with the addresses of their values. */
  lemma TokensRead(mem: seq<Byte>, strings: nat, p: nat, end: nat, toks: Tokens, names: seq<seq<Byte>>)
    requires Storable(toks, names) && StringsHeld(mem, strings, names)
    requires p % 4 == 0 && Holds(mem, p, WriteTokens(toks, names)) && end == p + |WriteTokens(toks, names)|
    ensures BlockAt(mem, strings, p, end, Relocate(toks, p))
  {
    TokensHeld(mem, strings, p, end, toks, names);
    WrittenBlock(mem, strings, p, end, Relocate(toks, p), names);
  }

  /** The header's words that the walkers look at. */
  predicate HeaderWords(mem: seq<Byte>, base: nat, offset: nat, n: nat)
    requires base + 40 <= |mem|
  {
    && Word(mem, base) == MAGIC && Word(mem, base + 8) == offset && Word(mem, base + 12) == offset + n
    && Word(mem, base + 36) == n
  }

  lemma HeaderReads(mem: seq<Byte>, base: nat, root: Forest, offset: nat, n: nat)
    requires root.Tree? && root.next.Empty? && base + 40 <= |mem| && HeaderWords(mem, base, offset, n)
    requires TreeAt(mem, base + (offset + n), base + offset, base + offset + n, root)
    ensures HeaderAt(mem, base, root) && Usable(mem, base) == (base != 0)
  {
  }

  lemma FourParts(mem: seq<Byte>, base: nat, a: seq<Byte>, b: seq<Byte>, c: seq<Byte>, d: seq<Byte>)
    requires Holds(mem, base, a + b + c + d)
    ensures Holds(mem, base, a) && Holds(mem, base + |a| + |b|, c) && Holds(mem, base + |a| + |b| + |c|, d)
    ensures |a + b + c + d| == |a| + |b| + |c| + |d|
  {
    HoldsSplit(mem, base, a + b + c, d);
    HoldsSplit(mem, base, a + b, c);
    HoldsSplit(mem, base, a, b);
  }
}
