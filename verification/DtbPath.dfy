/** When the property search of _dtb_getprop is path lookup, and when it is not. */
module DtbPath {
  import opened Memory
  import opened Dtb
  import opened Wrappers

  // ---- path lookup proper ----

  /** Own properties of the nodes reached from these siblings by following the parts, base name by base name. */
  function Own(f: Forest, parts: seq<seq<Byte>>): seq<Prop>
    requires parts != []
  {
    if f.Empty? then []
    else
      var here := if BaseName(f.name) != parts[0] then [] else if |parts| == 1 then f.props
        else Own(f.kids, parts[1..]);
      here + Own(f.next, parts)
  }

  /** The own properties of every node whose whole path of base names is the path, in document order. */
  function OnPathOwn(root: Forest, path: seq<Byte>): seq<Prop>
    requires root.Tree?
  {
    if Depth(path) < 0 then [] else if Depth(path) == 0 then root.props else Own(root.kids, Split(path[1..]))
  }

  // ---- document order ----

  /** Values stand at ascending addresses. */
  ghost predicate Ascending(props: seq<Prop>) {
    forall i, j :: 0 <= i < j < |props| ==> props[i].at < props[j].at
  }

  /** a is b with some elements left out. */
  predicate Subseq<T(==)>(a: seq<T>, b: seq<T>) {
    a == [] || (b != [] && ((a[0] == b[0] && Subseq(a[1..], b[1..])) || Subseq(a, b[1..])))
  }

  lemma {:induction false} SubseqRefl<T>(a: seq<T>)
    ensures Subseq(a, a)
  {
    if a != [] {
      SubseqRefl(a[1..]);
    }
  }

  lemma {:induction false} SubseqConcat<T>(a: seq<T>, b: seq<T>, a': seq<T>, b': seq<T>)
    requires Subseq(a, b) && Subseq(a', b')
    ensures Subseq(a + a', b + b')
    decreases |b|
  {
    if b == [] {
      assert a + a' == a' && b + b' == b';
    } else {
      assert (b + b')[1..] == b[1..] + b';
      if a != [] && a[0] == b[0] && Subseq(a[1..], b[1..]) {
        assert (a + a')[1..] == a[1..] + a';
        SubseqConcat(a[1..], b[1..], a', b');
      } else {
        SubseqConcat(a, b[1..], a', b');
      }
    }
  }

  lemma {:induction false} SubseqMembers<T>(a: seq<T>, b: seq<T>)
    requires Subseq(a, b)
    ensures forall x :: x in a ==> x in b
    decreases |b|
  {
    if a != [] {
      assert a == [a[0]] + a[1..] && b == [b[0]] + b[1..];
      if a[0] == b[0] && Subseq(a[1..], b[1..]) {
        SubseqMembers(a[1..], b[1..]);
      } else {
        SubseqMembers(a, b[1..]);
      }
    }
  }

  lemma {:induction false} SubseqAscending(a: seq<Prop>, b: seq<Prop>)
    requires Subseq(a, b) && Ascending(b)
    ensures Ascending(a)
    decreases |b|
  {
    if a != [] {
      if a[0] == b[0] && Subseq(a[1..], b[1..]) {
        SubseqAscending(a[1..], b[1..]);
        SubseqMembers(a[1..], b[1..]);
        forall j | 0 < j < |a| ensures a[0].at < a[j].at {
          assert a[1..][j - 1] in b[1..];
        }
      } else {
        SubseqAscending(a, b[1..]);
      }
    }
  }

  lemma {:induction false} CandidatesSubseq(f: Forest, depth: int, path: seq<Byte>)
    ensures Subseq(Candidates(f, depth, path), Under(f))
  {
    if f.Tree? {
      var here := if IsTarget(path, depth, f.name) then f.props + Under(f.kids)
        else Candidates(f.kids, depth + 1, path);
      if IsTarget(path, depth, f.name) {
        SubseqRefl(here);
      } else {
        CandidatesSubseq(f.kids, depth + 1, path);
        SubseqConcat([], f.props, here, Under(f.kids));
        assert [] + here == here;
      }
      CandidatesSubseq(f.next, depth, path);
      SubseqConcat(here, f.props + Under(f.kids), Candidates(f.next, depth, path), Under(f.next));
    }
  }

  lemma {:induction false} OwnSubseq(f: Forest, parts: seq<seq<Byte>>)
    requires parts != []
    ensures Subseq(Own(f, parts), Under(f))
  {
    if f.Tree? {
      var here := if BaseName(f.name) != parts[0] then [] else if |parts| == 1 then f.props
        else Own(f.kids, parts[1..]);
      if BaseName(f.name) == parts[0] && |parts| == 1 {
        SubseqRefl(f.props);
        SubseqConcat(f.props, f.props, [], Under(f.kids));
        assert f.props + [] == f.props;
      } else if BaseName(f.name) == parts[0] {
        OwnSubseq(f.kids, parts[1..]);
        SubseqConcat([], f.props, here, Under(f.kids));
        assert [] + here == here;
      }
      OwnSubseq(f.next, parts);
      SubseqConcat(here, f.props + Under(f.kids), Own(f.next, parts), Under(f.next));
    }
  }

  lemma OnPathSubseq(root: Forest, path: seq<Byte>)
    requires root.Tree?
    ensures Subseq(OnPathOwn(root, path), Under(root))
  {
    var kids := Under(root.kids);
    if Depth(path) == 0 {
      SubseqRefl(root.props);
      SubseqConcat(root.props, root.props, [], kids);
      SubseqConcat(root.props + [], root.props + kids, [], Under(root.next));
      assert root.props + [] + [] == root.props;
    } else if Depth(path) > 0 {
      var own := Own(root.kids, Split(path[1..]));
      OwnSubseq(root.kids, Split(path[1..]));
      SubseqConcat([], root.props, own, kids);
      SubseqConcat([] + own, root.props + kids, [], Under(root.next));
      assert [] + own + [] == own;
    }
  }

  // ---- an encoded tree's properties stand in document order ----

  /** The properties among the tokens. */
  function PropsOf(toks: Tokens): seq<Prop> {
    match toks
    case Done => []
    case Begin(_, rest) => PropsOf(rest)
    case Close(rest) => PropsOf(rest)
    case Property(prop, rest) => [prop] + PropsOf(rest)
  }

  lemma {:induction false} PropsOfProps(props: seq<Prop>, tail: Tokens)
    ensures PropsOf(FlattenProps(props, tail)) == props + PropsOf(tail)
  {
    if props != [] {
      PropsOfProps(props[1..], tail);
    }
  }

  lemma {:induction false} PropsOfForest(f: Forest, tail: Tokens)
    ensures PropsOf(Flatten(f, tail)) == Under(f) + PropsOf(tail)
  {
    if f.Tree? {
      var after := Flatten(f.next, tail);
      PropsOfForest(f.next, tail);
      PropsOfForest(f.kids, Close(after));
      PropsOfProps(f.props, Flatten(f.kids, Close(after)));
      ConcatFour(f.props, Under(f.kids), Under(f.next), PropsOf(tail));
    }
  }

  lemma ConcatFour(a: seq<Prop>, b: seq<Prop>, c: seq<Prop>, d: seq<Prop>)
    ensures a + (b + (c + d)) == a + b + c + d
  {
  }

  lemma {:induction false} BlockAscending(mem: seq<Byte>, strings: nat, p: nat, end: nat, toks: Tokens)
    requires BlockAt(mem, strings, p, end, toks)
    ensures Ascending(PropsOf(toks)) && forall i :: 0 <= i < |PropsOf(toks)| ==> p < PropsOf(toks)[i].at
    decreases end - p
  {
    if p < end {
      if Word(mem, p) == NOP {
        BlockAscending(mem, strings, p + 4, end, toks);
      } else {
        match toks
        case Done =>
        case Begin(name, rest) => BlockAscending(mem, strings, AfterName(p, name), end, rest);
        case Close(rest) => BlockAscending(mem, strings, p + 4, end, rest);
        case Property(prop, rest) => BlockAscending(mem, strings, AfterProp(p, prop), end, rest);
      }
    }
  }

  lemma EncodedAscending(mem: seq<Byte>, base: nat, root: Forest)
    requires HeaderAt(mem, base, root) && Word(mem, base) == MAGIC
    ensures root.Tree? && Ascending(Under(root))
  {
    var start := base + Word(mem, base + 8);
    BlockAscending(mem, base + Word(mem, base + 12), start, start + Word(mem, base + 36), Flatten(root, Done));
    PropsOfForest(root, Done);
    assert Under(root) + [] == Under(root);
  }

  // ---- the exact condition ----

  /** The first property of the name is the one at the lowest address. */
  lemma {:induction false} FirstIsLeast(props: seq<Prop>, name: seq<Byte>)
    requires Ascending(props)
    ensures match First(props, name)
            case None => forall x :: x in props ==> x.name != name
            case Some(p) => p in props && p.name == name && forall x :: x in props && x.name == name ==> p.at <= x.at
  {
    if props != [] {
      assert props == [props[0]] + props[1..];
      FirstIsLeast(props[1..], name);
    }
  }

  /** Every property of the name in a that is not in b stands behind one of the name in b. */
  ghost predicate Preceded(a: seq<Prop>, b: seq<Prop>, name: seq<Byte>) {
    forall x :: x in a && x.name == name && x !in b ==> exists y :: y in b && y.name == name && y.at < x.at
  }

  lemma SameFirst(all: seq<Prop>, a: seq<Prop>, b: seq<Prop>, name: seq<Byte>)
    requires Ascending(all) && Subseq(a, all) && Subseq(b, all)
    ensures First(a, name) == First(b, name) <==> Preceded(a, b, name) && Preceded(b, a, name)
  {
    SubseqAscending(a, all);
    SubseqAscending(b, all);
    SubseqMembers(a, all);
    SubseqMembers(b, all);
    FirstIsLeast(a, name);
    FirstIsLeast(b, name);
    forall x, y | x in all && y in all && x.at == y.at ensures x == y {
      var i :| 0 <= i < |all| && all[i] == x;
      var j :| 0 <= j < |all| && all[j] == y;
    }
  }

  /**
   * The search answers with path lookup iff every candidate of the name off the path, or further down, stands
   * behind an own property of the name of a node on the path, and conversely.
   */
  lemma PathLookupIff(root: Forest, path: seq<Byte>, name: seq<Byte>)
    requires root.Tree? && Ascending(Under(root))
    ensures var found, own := Candidates(root, 0, path), OnPathOwn(root, path);
            First(found, name) == First(own, name) <==> Preceded(found, own, name) && Preceded(own, found, name)
  {
    CandidatesSubseq(root, 0, path);
    OnPathSubseq(root, path);
    SameFirst(Under(root), Candidates(root, 0, path), OnPathOwn(root, path), name);
  }

  /** The last component is not empty and short enough to be compared whole. */
  predicate Canonical(path: seq<Byte>) {
    Depth(path) == 0 || (Depth(path) > 0 && LastPart(path) != [] && |LastPart(path)| < 64)
  }

  lemma {:induction false} OwnIsCandidate(f: Forest, depth: int, path: seq<Byte>, parts: seq<seq<Byte>>, x: Prop)
    requires depth >= 1 && parts != [] && Canonical(path) && Depth(path) == depth + |parts| - 1
    requires parts[|parts| - 1] == LastPart(path)
    requires x in Own(f, parts)
    ensures x in Candidates(f, depth, path)
  {
    hide Split, BaseName, Depth, LastPart, IsTarget, Own, Candidates;
    OwnMember(f, parts, x);
    TakenOrEntered(f, depth, path, parts);
    if x in Own(f.next, parts) {
      OwnIsCandidate(f.next, depth, path, parts, x);
    } else if |parts| > 1 {
      OwnIsCandidate(f.kids, depth + 1, path, parts[1..], x);
    }
    CandidateMember(f, depth, path, x);
  }

  lemma OwnMember(f: Forest, parts: seq<seq<Byte>>, x: Prop)
    requires parts != [] && x in Own(f, parts)
    ensures f.Tree?
    ensures || x in Own(f.next, parts)
            || (BaseName(f.name) == parts[0] && x in if |parts| == 1 then f.props else Own(f.kids, parts[1..]))
  {
  }

  lemma CandidateMember(f: Forest, depth: int, path: seq<Byte>, x: Prop)
    requires f.Tree?
    requires || x in Candidates(f.next, depth, path)
             || x in if IsTarget(path, depth, f.name) then f.props else Candidates(f.kids, depth + 1, path)
    ensures x in Candidates(f, depth, path)
  {
  }

  /** A node on the way to a canonical path is a candidate node iff it is the end of the path. */
  lemma TakenOrEntered(f: Forest, depth: int, path: seq<Byte>, parts: seq<seq<Byte>>)
    requires f.Tree? && depth >= 1 && parts != [] && Canonical(path) && Depth(path) == depth + |parts| - 1
    requires parts[|parts| - 1] == LastPart(path)
    ensures |parts| > 1 ==> !IsTarget(path, depth, f.name)
    ensures |parts| == 1 && BaseName(f.name) == parts[0] ==> IsTarget(path, depth, f.name)
  {
  }

  /** For canonical paths: iff no candidate of the name off the path, or further down, comes first. */
  lemma CanonicalPathLookupIff(root: Forest, path: seq<Byte>, name: seq<Byte>)
    requires root.Tree? && Ascending(Under(root)) && Canonical(path)
    ensures var found, own := Candidates(root, 0, path), OnPathOwn(root, path);
            First(found, name) == First(own, name) <==> Preceded(found, own, name)
  {
    PathLookupIff(root, path, name);
    if Depth(path) > 0 {
      forall x | x in OnPathOwn(root, path) ensures x in Candidates(root, 0, path) {
        OwnIsCandidate(root.kids, 1, path, Split(path[1..]), x);
      }
    }
  }

  /** For every encoded tree and canonical path: what _dtb_getprop finds is path lookup iff nothing else comes first. */
  lemma EncodedPathLookupIff(mem: seq<Byte>, base: nat, root: Forest, path: seq<Byte>, name: seq<Byte>)
    requires HeaderAt(mem, base, root) && Word(mem, base) == MAGIC && Canonical(path)
    ensures root.Tree?
    ensures var found, own := Candidates(root, 0, path), OnPathOwn(root, path);
            First(found, name) == First(own, name) <==> Preceded(found, own, name)
  {
    EncodedAscending(mem, base, root);
    CanonicalPathLookupIff(root, path, name);
  }

  // ---- inputs for which it is not ----

  const S: seq<Byte> := [0x73]                           // "s"
  const AT_S: seq<Byte> := [SLASH] + S                   // "/s"
  const B_S: seq<Byte> := [SLASH, 0x62] + AT_S           // "/b/s"

  lemma OnePart(c: Byte)
    requires c != SLASH && c != AT
    ensures Split([c]) == [[c]] && BaseName([c]) == [c]
  {
    var s: seq<Byte> := [c];
    assert s[1..] == [];
    assert Until(s, SLASH) == 1 && Until(s, AT) == 1;
  }

  lemma TwoParts()
    ensures Split(B_S[1..]) == [[0x62], S] && Split(AT_S[1..]) == [S]
  {
    var tail: seq<Byte> := [0x62, SLASH, 0x73];
    OnePart(0x73);
    assert B_S[1..] == tail && AT_S[1..] == S;
    assert tail[1..] == [SLASH, 0x73] && tail[2..] == S;
    assert Until(tail[1..], SLASH) == 0 && Until(tail, SLASH) == 1;
    assert Split(tail) == [tail[..1]] + Split(tail[2..]);
    var first: seq<Byte> := [0x62];
    assert tail[..1] == first;
  }

  /** The ancestors are not compared: with nodes /a/s and /b/s, asking for p of /b/s answers with that of /a/s. */
  lemma OffPathNamesake(p: Prop)
    requires p.name == [0x70]
    ensures var tops := Tree([0x61], [], Tree(S, [p], Empty, Empty),
                             Tree([0x62], [], Tree(S, [], Empty, Empty), Empty));
            var root := Tree([], [], tops, Empty);
            First(Candidates(root, 0, B_S), p.name) == Some(p) && First(OnPathOwn(root, B_S), p.name) == None
  {
    TwoParts();
    OnePart(0x73);
    OnePart(0x61);
    OnePart(0x62);
    var s, t := Tree(S, [p], Empty, Empty), Tree(S, [], Empty, Empty);
    var b := Tree([0x62], [], t, Empty);
    var tops := Tree([0x61], [], s, b);
    assert IsTarget(B_S, 2, S) && !IsTarget(B_S, 1, [0x61]) && !IsTarget(B_S, 0, []);
    assert Candidates(s, 2, B_S) == [p];
    assert Candidates(tops, 1, B_S) == [p] + Candidates(b, 1, B_S);
    FirstConcat([p], Candidates(b, 1, B_S), p.name);
    assert Candidates(Tree([], [], tops, Empty), 0, B_S) == Candidates(tops, 1, B_S);
    assert Own(t, [S]) == [] && Own(b, [[0x62], S]) == Own(t, [[0x62], S][1..]);
    assert [[0x62], S][1..] == [S];
    assert Own(tops, [[0x62], S]) == [];
  }

  /** The search does not stop at the target's own properties: asking for p of /s answers with that of /s/a. */
  lemma DescendantAnswered(p: Prop)
    requires p.name == [0x70]
    ensures var root := Tree([], [], Tree(S, [], Tree([0x61], [p], Empty, Empty), Empty), Empty);
            First(Candidates(root, 0, AT_S), p.name) == Some(p) && First(OnPathOwn(root, AT_S), p.name) == None
  {
    TwoParts();
    OnePart(0x73);
    var s := Tree(S, [], Tree([0x61], [p], Empty, Empty), Empty);
    assert IsTarget(AT_S, 1, S) && !IsTarget(AT_S, 0, []);
    assert Under(s.kids) == [p];
    assert Candidates(s, 1, AT_S) == [p];
    assert Candidates(Tree([], [], s, Empty), 0, AT_S) == Candidates(s, 1, AT_S);
    assert Own(s, [S]) == [];
  }
}
