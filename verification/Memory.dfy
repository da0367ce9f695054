/** Physical memory as bytes, C strings in it, and the alignment the binary formats use. */
module Memory {

  type Byte = x: int | 0 <= x < 256

  /** (addr + 3) & ~3 */
  function Align4(x: nat): (r: nat)
    ensures x <= r < x + 4 && r % 4 == 0
  {
    (x + 3) / 4 * 4
  }

  /** A string that can be stored with a terminating NUL. */
  predicate NulFree(s: seq<Byte>) {
    forall i :: 0 <= i < |s| ==> s[i] != 0
  }

  /** The C string at p is s. */
  predicate StringAt(mem: seq<Byte>, p: nat, s: seq<Byte>) {
    p + |s| < |mem| && mem[p..p + |s|] == s && mem[p + |s|] == 0 && NulFree(s)
  }

  /** str_eq, of the C string at p with a string constant or argument. */
  method StrEq(mem: seq<Byte>, p: nat, target: seq<Byte>, ghost s: seq<Byte>) returns (r: bool)
    requires StringAt(mem, p, s) && NulFree(target)
    ensures r <==> s == target
  {
    var i := 0;
    while i < |target| && mem[p + i] != 0 && mem[p + i] == target[i]
      invariant i <= |target| && i <= |s| && s[..i] == target[..i]
      invariant forall j :: 0 <= j < |s| ==> mem[p + j] == s[j]
    {
      i := i + 1;
    }
    r := i == |target| && mem[p + i] == 0;
    assert r ==> i == |s|;
    assert !r && |s| == |target| ==> i < |s| && s[i] != target[i];
  }

  // ---- bytes laid out in memory ----

  function Zeros(n: nat): seq<Byte> {
    seq(n, _ => 0)
  }

  /** s with zeros up to a multiple of four. */
  function Padded(s: seq<Byte>): (r: seq<Byte>)
    ensures |r| == Align4(|s|) && s <= r
  {
    s + Zeros(Align4(|s|) - |s|)
  }

  /** The bytes b stand in memory at p. */
  predicate Holds(mem: seq<Byte>, p: nat, b: seq<Byte>) {
    p + |b| <= |mem| && mem[p..p + |b|] == b
  }

  lemma AlignShift(p: nat, n: nat)
    requires p % 4 == 0
    ensures Align4(p + n) == p + Align4(n)
  {
  }

  lemma HoldsPrefix(mem: seq<Byte>, p: nat, b: seq<Byte>, a: seq<Byte>)
    requires Holds(mem, p, b) && a <= b
    ensures Holds(mem, p, a)
  {
    assert mem[p..p + |a|] == mem[p..p + |b|][..|a|];
  }

  lemma HoldsSlice(mem: seq<Byte>, p: nat, b: seq<Byte>, i: nat, j: nat)
    requires Holds(mem, p, b) && i <= j <= |b|
    ensures mem[p + i..p + j] == b[i..j]
  {
    forall k | i <= k < j ensures mem[p + k] == b[k] {
      assert mem[p..p + |b|][k] == b[k];
    }
  }

  lemma HoldsSplit(mem: seq<Byte>, p: nat, a: seq<Byte>, b: seq<Byte>)
    requires Holds(mem, p, a + b)
    ensures Holds(mem, p, a) && Holds(mem, p + |a|, b)
  {
    assert mem[p..p + |a|] == mem[p..p + |a + b|][..|a|];
    assert mem[p + |a|..p + |a| + |b|] == mem[p..p + |a + b|][|a|..];
  }

  lemma StringHeld(mem: seq<Byte>, q: nat, name: seq<Byte>)
    requires Holds(mem, q, name) && Holds(mem, q + |name|, [0]) && NulFree(name)
    ensures StringAt(mem, q, name)
  {
    var z, nul := q + |name|, [0];
    assert mem[z..z + |nul|] == nul && mem[z] == mem[z..z + |nul|][0];
  }
}
