/** Lookup in an SVR4 newc archive. */
module Cpio {
  import opened Memory

  const HEADER: nat := 110
  const FILESIZE: nat := 54  // offset of c_filesize
  const NAMESIZE: nat := 94  // offset of c_namesize

  const MAGIC: seq<Byte> := [0x30, 0x37, 0x30, 0x37, 0x30, 0x31]                                // "070701"
  const TRAILER: seq<Byte> := [0x54, 0x52, 0x41, 0x49, 0x4C, 0x45, 0x52, 0x21, 0x21, 0x21]      // "TRAILER!!!"

  // ---- hexadecimal fields ----

  /** What one character adds; anything but a hex digit adds nothing. */
  function DigitValue(c: Byte): nat {
    if 0x30 <= c <= 0x39 then c - 0x30
    else if 0x41 <= c <= 0x46 then c - 0x41 + 10
    else if 0x61 <= c <= 0x66 then c - 0x61 + 10
    else 0
  }

  function HexValue(s: seq<Byte>): nat {
    if s == [] then 0 else HexValue(s[..|s| - 1]) * 16 + DigitValue(s[|s| - 1])
  }

  method Hex2Int(mem: seq<Byte>, p: nat, len: nat) returns (val: nat)
    requires p + len <= |mem|
    ensures val == HexValue(mem[p..p + len])
  {
    val := 0;
    for i := 0 to len
      invariant val == HexValue(mem[p..p + i])
    {
      assert mem[p..p + i + 1][..i] == mem[p..p + i];
      val := val * 16;
      var c := mem[p + i];
      if 0x30 <= c <= 0x39 {
        val := val + (c - 0x30);
      } else if 0x41 <= c <= 0x46 {
        val := val + (c - 0x41 + 10);
      } else if 0x61 <= c <= 0x66 {
        val := val + (c - 0x61 + 10);
      }
    }
  }

  function Digit(d: nat, upper: bool): Byte
    requires d < 16
  {
    if d < 10 then 0x30 + d else if upper then 0x41 + d - 10 else 0x61 + d - 10
  }

  /** n written with the given number of hex digits, in either case. */
  function ToHex(n: nat, digits: nat, upper: bool): (s: seq<Byte>)
    ensures |s| == digits
  {
    if digits == 0 then [] else ToHex(n / 16, digits - 1, upper) + [Digit(n % 16, upper)]
  }

  function Pow16(k: nat): (r: nat)
    ensures r > 0
  {
    if k == 0 then 1 else 16 * Pow16(k - 1)
  }

  /** Reading back what was written gives the number, for every number the field can hold. */
  lemma {:induction false} HexRoundTrip(n: nat, digits: nat, upper: bool)
    requires n < Pow16(digits)
    ensures HexValue(ToHex(n, digits, upper)) == n
  {
    if digits > 0 {
      HexRoundTrip(n / 16, digits - 1, upper);
      var s := ToHex(n, digits, upper);
      assert s[..digits - 1] == ToHex(n / 16, digits - 1, upper);
    }
  }

  // ---- archives ----

  datatype Entry = Entry(name: seq<Byte>, data: seq<Byte>)

  function DataAt(p: nat, e: Entry): nat {
    Align4(p + HEADER + |e.name| + 1)
  }

  function NextAt(p: nat, e: Entry): nat {
    Align4(DataAt(p, e) + |e.data|)
  }

  /** A header with the entry's sizes in hex at p, its name and its data behind it. */
  predicate EntryAt(mem: seq<Byte>, p: nat, e: Entry) {
    && NextAt(p, e) <= |mem|
    && mem[p..p + 6] == MAGIC
    && HexValue(mem[p + FILESIZE..p + FILESIZE + 8]) == |e.data|
    && HexValue(mem[p + NAMESIZE..p + NAMESIZE + 8]) == |e.name| + 1
    && StringAt(mem, p + HEADER, e.name)
    && mem[DataAt(p, e)..DataAt(p, e) + |e.data|] == e.data
  }

  /** No header here. */
  predicate BadMagicAt(mem: seq<Byte>, p: nat) {
    p + 6 <= |mem| && mem[p..p + 6] != MAGIC
  }

  /** The entries stand at p one behind the other, followed by the trailer entry or by no header at all. */
  predicate ArchiveAt(mem: seq<Byte>, p: nat, entries: seq<Entry>)
    decreases |entries|
  {
    if entries == [] then EntryAt(mem, p, Entry(TRAILER, [])) || BadMagicAt(mem, p)
    else EntryAt(mem, p, entries[0]) && entries[0].name != TRAILER &&
         ArchiveAt(mem, NextAt(p, entries[0]), entries[1..])
  }

  datatype Found = NotFound | Found(pos: nat, size: nat)

  /** The first entry of that name. */
  function Lookup(p: nat, entries: seq<Entry>, target: seq<Byte>): Found
    decreases |entries|
  {
    if entries == [] then NotFound
    else if entries[0].name == target then Found(DataAt(p, entries[0]), |entries[0].data|)
    else Lookup(NextAt(p, entries[0]), entries[1..], target)
  }

  /** Entry i is the first of that name. */
  predicate IsFirst(entries: seq<Entry>, target: seq<Byte>, i: int) {
    0 <= i < |entries| && entries[i].name == target && forall j :: 0 <= j < i ==> entries[j].name != target
  }

  /** The size bytes at data are what the entry holds. */
  predicate Payload(mem: seq<Byte>, data: nat, size: nat, e: Entry) {
    size == |e.data| && data + size <= |mem| && mem[data..data + size] == e.data
  }

  /** What is found is the data of the first entry of the name. */
  lemma {:induction false} LookupPayload(mem: seq<Byte>, p: nat, entries: seq<Entry>, target: seq<Byte>)
    requires ArchiveAt(mem, p, entries)
    ensures var f := Lookup(p, entries, target);
            f.Found? ==> exists i :: IsFirst(entries, target, i) && Payload(mem, f.pos, f.size, entries[i])
    decreases |entries|
  {
    hide EntryAt, NextAt;
    if entries != [] {
      var rest := entries[1..];
      EntryPayload(mem, p, entries[0]);
      if entries[0].name == target {
        assert IsFirst(entries, target, 0);
      } else {
        LookupPayload(mem, NextAt(p, entries[0]), rest, target);
        var f := Lookup(NextAt(p, entries[0]), rest, target);
        if f.Found? {
          var i :| IsFirst(rest, target, i) && Payload(mem, f.pos, f.size, rest[i]);
          assert IsFirst(entries, target, i + 1) && entries[i + 1] == rest[i];
        }
      }
    }
  }

  lemma EntryPayload(mem: seq<Byte>, p: nat, e: Entry)
    requires EntryAt(mem, p, e)
    ensures Payload(mem, DataAt(p, e), |e.data|, e)
  {
    AlignUp(DataAt(p, e) + |e.data|);
  }

  lemma AlignUp(x: nat)
    ensures x <= Align4(x)
  {
  }

  method MagicOk(mem: seq<Byte>, p: nat) returns (ok: bool)
    requires p + 6 <= |mem|
    ensures ok <==> mem[p..p + 6] == MAGIC
  {
    ok := mem[p] == 0x30 && mem[p + 1] == 0x37 && mem[p + 2] == 0x30 && mem[p + 3] == 0x37 && mem[p + 4] == 0x30 &&
      mem[p + 5] == 0x31;
    assert mem[p..p + 6] == [mem[p], mem[p + 1], mem[p + 2], mem[p + 3], mem[p + 4], mem[p + 5]];
  }

  /** Where the data of the entry at p and the next entry are, from the sizes in its header. */
  method ReadSizes(mem: seq<Byte>, p: nat, ghost e: Entry) returns (fileData: nat, filesize: nat, next: nat)
    requires EntryAt(mem, p, e)
    ensures fileData == DataAt(p, e) && filesize == |e.data| && next == NextAt(p, e)
  {
    var namesize := Hex2Int(mem, p + NAMESIZE, 8);
    filesize := Hex2Int(mem, p + FILESIZE, 8);
    fileData := Align4(p + HEADER + namesize);
    next := Align4(fileData + filesize);
  }

  /**
   * cpio_find. On success data and size describe the payload of the first entry with the name; on
   * failure they are what they were.
   */
  method Find(mem: seq<Byte>, archive: nat, target: seq<Byte>, data0: nat, size0: nat, ghost entries: seq<Entry>)
    returns (r: int, data: nat, size: nat)
    requires NulFree(target) && (archive != 0 ==> ArchiveAt(mem, archive, entries))
    ensures var f := if archive == 0 then NotFound else Lookup(archive, entries, target);
            if f.Found? then r == 0 && data == f.pos && size == f.size else r == -1 && data == data0 && size == size0
    ensures r == 0 ==> archive != 0 && exists i :: IsFirst(entries, target, i) && Payload(mem, data, size, entries[i])
    ensures r != 0 && archive != 0 ==> forall i :: 0 <= i < |entries| ==> entries[i].name != target
  {
    hide IsFirst, Payload, HexValue;
    if archive != 0 {
      LookupComplete(archive, entries, target);
      LookupPayload(mem, archive, entries, target);
    }
    r, data, size := -1, data0, size0;
    if archive == 0 {
      return;
    }
    var ptr: nat := archive;
    ghost var rest := entries;
    while true
      invariant ArchiveAt(mem, ptr, rest) && r == -1 && data == data0 && size == size0
      invariant Lookup(ptr, rest, target) == Lookup(archive, entries, target)
      decreases |rest|
    {
      var ok := MagicOk(mem, ptr);
      if !ok {
        return;
      }
      ghost var e := if rest == [] then Entry(TRAILER, []) else rest[0];
      var filename := ptr + HEADER;
      var last := StrEq(mem, filename, TRAILER, e.name);
      if last {
        return;
      }
      var fileData, filesize, next := ReadSizes(mem, ptr, e);
      var hit := StrEq(mem, filename, target, e.name);
      if hit {
        return 0, fileData, filesize;
      }
      ptr := next;
      rest := rest[1..];
    }
  }

  // ---- writing an archive ----

  /**
   * What a header holds besides magic and sizes: the fields before the file size (inode, mode, uid, gid, nlink,
   * mtime), those between the sizes (device numbers) and the checksum, and the case its hex digits are in.
   */
  datatype Meta = Meta(first: seq<Byte>, middle: seq<Byte>, check: seq<Byte>, upper: bool) {
    predicate Valid() {
      |first| == 48 && |middle| == 32 && |check| == 8
    }
  }

  /** The 110-byte header: magic and thirteen 8-digit fields. */
  function Header(namesize: nat, filesize: nat, m: Meta): (h: seq<Byte>)
    requires m.Valid()
    ensures |h| == HEADER
  {
    MAGIC + m.first + ToHex(filesize, 8, m.upper) + m.middle + ToHex(namesize, 8, m.upper) + m.check
  }

  function WriteEntry(e: Entry, m: Meta): (w: seq<Byte>)
    requires m.Valid()
    ensures |w| % 4 == 0
  {
    Padded(Front(e, m) + e.data)
  }

  /** The entries and the trailer, each with its own header fields. */
  function Write(entries: seq<Entry>, metas: seq<Meta>): seq<Byte>
    requires |metas| == |entries| + 1 && forall i :: 0 <= i < |metas| ==> metas[i].Valid()
  {
    if entries == [] then WriteEntry(Entry(TRAILER, []), metas[0])
    else WriteEntry(entries[0], metas[0]) + Write(entries[1..], metas[1..])
  }

  /** Names and data that an archive can hold: no NUL in a name, sizes of at most eight hex digits. */
  predicate Storable(e: Entry) {
    NulFree(e.name) && |e.name| + 1 < Pow16(8) && |e.data| < Pow16(8)
  }

  lemma HeaderFields(namesize: nat, filesize: nat, m: Meta)
    requires m.Valid() && namesize < Pow16(8) && filesize < Pow16(8)
    ensures var h := Header(namesize, filesize, m);
            && h[0..6] == MAGIC
            && HexValue(h[FILESIZE..FILESIZE + 8]) == filesize
            && HexValue(h[NAMESIZE..NAMESIZE + 8]) == namesize
  {
    var h := Header(namesize, filesize, m);
    assert h[FILESIZE..FILESIZE + 8] == ToHex(filesize, 8, m.upper);
    assert h[NAMESIZE..NAMESIZE + 8] == ToHex(namesize, 8, m.upper);
    HexRoundTrip(filesize, 8, m.upper);
    HexRoundTrip(namesize, 8, m.upper);
  }

  /** Header, name and padding. */
  function Front(e: Entry, m: Meta): seq<Byte>
    requires m.Valid()
  {
    Padded(Header(|e.name| + 1, |e.data|, m) + e.name + [0])
  }

  lemma FrontParts(mem: seq<Byte>, p: nat, e: Entry, m: Meta)
    requires m.Valid() && p % 4 == 0 && Holds(mem, p, Front(e, m))
    ensures Holds(mem, p, Header(|e.name| + 1, |e.data|, m))
    ensures Holds(mem, p + HEADER, e.name) && Holds(mem, p + HEADER + |e.name|, [0])
    ensures DataAt(p, e) == p + |Front(e, m)|
  {
    var h := Header(|e.name| + 1, |e.data|, m);
    HoldsPrefix(mem, p, Front(e, m), h + e.name + [0]);
    HoldsSplit(mem, p, h + e.name, [0]);
    HoldsSplit(mem, p, h, e.name);
    AlignShift(p, HEADER + |e.name| + 1);
  }

  /** The two parts of a written entry. */
  lemma WrittenParts(mem: seq<Byte>, p: nat, e: Entry, m: Meta)
    requires m.Valid() && p % 4 == 0 && Holds(mem, p, WriteEntry(e, m))
    ensures Holds(mem, p, Front(e, m)) && Holds(mem, p + |Front(e, m)|, e.data)
    ensures Align4(p + |Front(e, m)| + |e.data|) == p + |WriteEntry(e, m)|
  {
    HoldsPrefix(mem, p, WriteEntry(e, m), Front(e, m) + e.data);
    HoldsSplit(mem, p, Front(e, m), e.data);
    AlignShift(p, |Front(e, m)| + |e.data|);
  }

  lemma HeaderInMemory(mem: seq<Byte>, p: nat, namesize: nat, filesize: nat, m: Meta)
    requires m.Valid() && namesize < Pow16(8) && filesize < Pow16(8) && Holds(mem, p, Header(namesize, filesize, m))
    ensures mem[p..p + 6] == MAGIC
    ensures HexValue(mem[p + FILESIZE..p + FILESIZE + 8]) == filesize
    ensures HexValue(mem[p + NAMESIZE..p + NAMESIZE + 8]) == namesize
  {
    var h := Header(namesize, filesize, m);
    HeaderFields(namesize, filesize, m);
    HoldsSlice(mem, p, h, 0, 6);
    HoldsSlice(mem, p, h, FILESIZE, FILESIZE + 8);
    HoldsSlice(mem, p, h, NAMESIZE, NAMESIZE + 8);
  }

  lemma WrittenEntry(mem: seq<Byte>, p: nat, e: Entry, m: Meta)
    requires m.Valid() && p % 4 == 0 && Storable(e) && Holds(mem, p, WriteEntry(e, m))
    ensures EntryAt(mem, p, e) && NextAt(p, e) == p + |WriteEntry(e, m)|
  {
    WrittenFront(mem, p, e, m);
    WrittenNext(mem, p, e, m);
  }

  lemma WrittenNext(mem: seq<Byte>, p: nat, e: Entry, m: Meta)
    requires m.Valid() && p % 4 == 0 && Holds(mem, p, WriteEntry(e, m))
    ensures NextAt(p, e) == p + |WriteEntry(e, m)| && Holds(mem, DataAt(p, e), e.data)
  {
    WrittenParts(mem, p, e, m);
    FrontParts(mem, p, e, m);
  }

  lemma WrittenFront(mem: seq<Byte>, p: nat, e: Entry, m: Meta)
    requires m.Valid() && p % 4 == 0 && Storable(e) && Holds(mem, p, WriteEntry(e, m))
    ensures mem[p..p + 6] == MAGIC && StringAt(mem, p + HEADER, e.name)
    ensures HexValue(mem[p + FILESIZE..p + FILESIZE + 8]) == |e.data|
    ensures HexValue(mem[p + NAMESIZE..p + NAMESIZE + 8]) == |e.name| + 1
  {
    WrittenParts(mem, p, e, m);
    FrontParts(mem, p, e, m);
    HeaderInMemory(mem, p, |e.name| + 1, |e.data|, m);
    StringHeld(mem, p + HEADER, e.name);
  }

  lemma WrittenTrailer(mem: seq<Byte>, p: nat, m: Meta)
    requires m.Valid() && p % 4 == 0 && Holds(mem, p, WriteEntry(Entry(TRAILER, []), m))
    ensures ArchiveAt(mem, p, [])
  {
    assert Pow16(8) == 16 * Pow16(7) && Pow16(7) == 16 * Pow16(6);
    WrittenEntry(mem, p, Entry(TRAILER, []), m);
  }

  /** A written archive is read as the entries it was written from, whatever its other header fields say. */
  lemma {:induction false} WrittenArchive(mem: seq<Byte>, p: nat, entries: seq<Entry>, metas: seq<Meta>)
    requires |metas| == |entries| + 1 && forall i :: 0 <= i < |metas| ==> metas[i].Valid()
    requires forall i :: 0 <= i < |entries| ==> Storable(entries[i]) && entries[i].name != TRAILER
    requires p % 4 == 0 && Holds(mem, p, Write(entries, metas))
    ensures ArchiveAt(mem, p, entries)
    decreases |entries|
  {
    if entries == [] {
      WrittenTrailer(mem, p, metas[0]);
    } else {
      var w, rest := WriteEntry(entries[0], metas[0]), Write(entries[1..], metas[1..]);
      HoldsSplit(mem, p, w, rest);
      WrittenEntry(mem, p, entries[0], metas[0]);
      WrittenArchive(mem, p + |w|, entries[1..], metas[1..]);
    }
  }

  /** Lookup finds an entry of the name exactly when there is one. */
  lemma {:induction false} LookupComplete(p: nat, entries: seq<Entry>, target: seq<Byte>)
    ensures Lookup(p, entries, target).Found? <==> exists i :: 0 <= i < |entries| && entries[i].name == target
    decreases |entries|
  {
    if entries != [] && entries[0].name != target {
      var rest := entries[1..];
      LookupComplete(NextAt(p, entries[0]), rest, target);
      assert forall i :: 0 <= i < |rest| ==> rest[i] == entries[i + 1];
      if i :| 0 <= i < |entries| && entries[i].name == target {
        assert rest[i - 1].name == target;
      }
    }
  }
}
