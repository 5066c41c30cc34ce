/**
 * Style writes: `setAttribute('style', ...)` and `style.background = ...` over
 * a list of elements, and the fact that they leave the tree's shape alone, so
 * that every selector query answers the same before and after them.
 */
module StyleWrites {
  import opened Dom

  // ---------------------------------------------------------------------------
  // Queries do not see styles

  /** Two child lists that differ at most in style attributes. */
  predicate SameShape(a: seq<Node>, b: seq<Node>) {
    |a| == |b| && forall i :: 0 <= i < |a| ==> Unstyled(a[i]) == Unstyled(b[i])
  }

  lemma UnstyledParts(a: Node, b: Node)
    requires Unstyled(a) == Unstyled(b)
    ensures a.Element? <==> b.Element?
    ensures !a.Element? ==> a == b
    ensures a.Element? ==> a.tag == b.tag && a.cls == b.cls && SameShape(a.kids, b.kids)
  {
    if a.Element? && b.Element? {
      assert |Unstyled(a).kids| == |a.kids| && |Unstyled(b).kids| == |b.kids|;
      forall i | 0 <= i < |a.kids|
        ensures Unstyled(a.kids[i]) == Unstyled(b.kids[i])
      {
        assert Unstyled(a).kids[i] == Unstyled(a.kids[i]);
        assert Unstyled(b).kids[i] == Unstyled(b.kids[i]);
      }
    }
  }

  /** Trees that differ only in styles, with a node replaced by nodes that differ only in styles, still do. */
  lemma {:induction false} UnstyledSetAt(a: Node, b: Node, p: Path, n: Node, m: Node)
    requires Unstyled(a) == Unstyled(b) && ValidPath(a, p) && Unstyled(n) == Unstyled(m)
    ensures ValidPath(b, p) && Unstyled(SetAt(a, p, n)) == Unstyled(SetAt(b, p, m))
    decreases |p|
  {
    UnstyledPaths(a, b, p);
    if p != [] {
      UnstyledParts(a, b);
      var i := p[0];
      UnstyledSetAt(a.kids[i], b.kids[i], p[1..], n, m);
      var ka := a.kids[i := SetAt(a.kids[i], p[1..], n)];
      var kb := b.kids[i := SetAt(b.kids[i], p[1..], m)];
      assert SameShape(ka, kb);
      SameShapeUnstyled(a.tag, a.cls, ka, kb);
    }
  }

  /** Elements with the same tag and class, and children that differ only in styles, differ only in styles. */
  lemma SameShapeUnstyled(tag: string, cls: string, ka: seq<Node>, kb: seq<Node>)
    requires SameShape(ka, kb)
    ensures forall x, y :: Unstyled(Element(tag, cls, x, ka)) == Unstyled(Element(tag, cls, y, kb))
  {
    forall x, y ensures Unstyled(Element(tag, cls, x, ka)) == Unstyled(Element(tag, cls, y, kb)) {
      assert Unstyled(Element(tag, cls, x, ka)).kids == Unstyled(Element(tag, cls, y, kb)).kids;
    }
  }

  /** Setting the same class on two elements that differ only in styles keeps them so. */
  lemma UnstyledClass(a: Node, b: Node, cls: string)
    requires Unstyled(a) == Unstyled(b) && a.Element?
    ensures b.Element? && Unstyled(a.(cls := cls)) == Unstyled(b.(cls := cls))
  {
    UnstyledParts(a, b);
    SameShapeUnstyled(a.tag, cls, a.kids, b.kids);
  }

  lemma {:induction false} SameText(a: Node, b: Node)
    requires Unstyled(a) == Unstyled(b)
    ensures TextContent(a) == TextContent(b)
    decreases a
  {
    UnstyledParts(a, b);
    if a.Element? {
      SameForestText(a.kids, b.kids);
    }
  }

  lemma {:induction false} SameForestText(ka: seq<Node>, kb: seq<Node>)
    requires SameShape(ka, kb)
    ensures ForestText(ka) == ForestText(kb)
    decreases ka, 1
  {
    if ka != [] {
      var m := |ka| - 1;
      assert SameShape(ka[..m], kb[..m]);
      SameForestText(ka[..m], kb[..m]);
      SameText(ka[m], kb[m]);
    }
  }

  lemma {:induction false} SameDescendants(a: Node, b: Node)
    requires Unstyled(a) == Unstyled(b)
    ensures Descendants(a) == Descendants(b)
    decreases a
  {
    UnstyledParts(a, b);
    if a.Element? {
      SameForestPaths(a.kids, b.kids);
    }
  }

  lemma {:induction false} SameForestPaths(ka: seq<Node>, kb: seq<Node>)
    requires SameShape(ka, kb)
    ensures ForestPaths(ka) == ForestPaths(kb)
    decreases ka, 1
  {
    if ka != [] {
      var m := |ka| - 1;
      assert SameShape(ka[..m], kb[..m]);
      SameForestPaths(ka[..m], kb[..m]);
      SameDescendants(ka[m], kb[m]);
    }
  }

  lemma {:induction false} SameInTbody(a: Node, b: Node, p: Path)
    requires Unstyled(a) == Unstyled(b) && ValidPath(a, p) && ValidPath(b, p)
    ensures InTbody(a, p) == InTbody(b, p)
    decreases |p|
  {
    if |p| > 1 {
      UnstyledParts(a, b);
      UnstyledParts(a.kids[p[0]], b.kids[p[0]]);
      SameInTbody(a.kids[p[0]], b.kids[p[0]], p[1..]);
    }
  }

  lemma SameMatches(a: Node, b: Node, p: Path, sel: Selector)
    requires Unstyled(a) == Unstyled(b)
    ensures Matches(a, p, sel) == Matches(b, p, sel)
  {
    if ValidPath(a, p) {
      UnstyledPaths(a, b, p);
    }
    if ValidPath(b, p) {
      UnstyledPaths(b, a, p);
    }
    if ValidPath(a, p) && ValidPath(b, p) {
      UnstyledParts(At(a, p), At(b, p));
      SameText(At(a, p), At(b, p));
      SameInTbody(a, b, p);
    }
  }

  lemma {:induction false} SameFilter(a: Node, b: Node, ps: seq<Path>, sel: Selector)
    requires Unstyled(a) == Unstyled(b)
    ensures FilterMatches(a, ps, sel) == FilterMatches(b, ps, sel)
    decreases |ps|
  {
    if ps != [] {
      SameFilter(a, b, ps[..|ps| - 1], sel);
      SameMatches(a, b, ps[|ps| - 1], sel);
    }
  }

  lemma {:induction false} SameFirst(a: Node, b: Node, ps: seq<Path>, sel: Selector)
    requires Unstyled(a) == Unstyled(b)
    ensures FirstMatch(a, ps, sel) == FirstMatch(b, ps, sel)
    decreases |ps|
  {
    if ps != [] {
      SameMatches(a, b, ps[0], sel);
      SameFirst(a, b, ps[1..], sel);
    }
  }

  /** `querySelector` and `querySelectorAll` answer the same on trees that differ only in styles. */
  lemma SameQueries(a: Node, b: Node, sel: Selector)
    requires Unstyled(a) == Unstyled(b)
    ensures QueryAll(a, sel) == QueryAll(b, sel)
    ensures QueryFirst(a, sel) == QueryFirst(b, sel)
  {
    SameDescendants(a, b);
    SameFilter(a, b, Descendants(a), sel);
    SameFirst(a, b, Descendants(a), sel);
  }

  // ---------------------------------------------------------------------------
  // Writing the style of every element of a list

  /** The row highlight: `style.background = '#f8fafc'`, appended as a declaration. */
  const RowShade: string := "background: #f8fafc;"

  datatype StyleWrite =
    | SetTo(css: string)    // `setAttribute('style', css)`
    | ShadeBackground       // `style.background = '#f8fafc'`

  function Apply(w: StyleWrite, css: string): string {
    match w
    case SetTo(c) => c
    case ShadeBackground => css + RowShade
  }

  /** Every path leads to an element. */
  predicate ElementPaths(t: Node, ps: seq<Path>)
    decreases |ps|
  {
    ps == [] ||
    (ElementPaths(t, ps[..|ps| - 1]) && ValidPath(t, ps[|ps| - 1]) && At(t, ps[|ps| - 1]).Element?)
  }

  lemma {:induction false} ElementPathsAll(t: Node, ps: seq<Path>)
    requires forall k :: 0 <= k < |ps| ==> ValidPath(t, ps[k]) && At(t, ps[k]).Element?
    ensures ElementPaths(t, ps)
    decreases |ps|
  {
    if ps != [] {
      var m := |ps| - 1;
      assert forall k :: 0 <= k < m ==> ps[..m][k] == ps[k];
      ElementPathsAll(t, ps[..m]);
    }
  }

  lemma {:induction false} ElementPathsEach(t: Node, ps: seq<Path>, k: nat)
    requires ElementPaths(t, ps) && k < |ps|
    ensures ValidPath(t, ps[k]) && At(t, ps[k]).Element?
    decreases |ps|
  {
    var m := |ps| - 1;
    if k < m {
      ElementPathsEach(t, ps[..m], k);
      assert ps[..m][k] == ps[k];
    }
  }

  lemma QueryAllElements(t: Node, sel: Selector)
    ensures ElementPaths(t, QueryAll(t, sel))
  {
    ElementPathsAll(t, QueryAll(t, sel));
  }

  /** An element reached by `p` is still an element, at the same path, once styles changed. */
  lemma StillElement(a: Node, b: Node, p: Path)
    requires Unstyled(a) == Unstyled(b) && ValidPath(a, p) && At(a, p).Element?
    ensures ValidPath(b, p) && At(b, p).Element? && At(b, p).tag == At(a, p).tag
  {
    UnstyledPaths(a, b, p);
    UnstyledParts(At(a, p), At(b, p));
  }

  /** `ps.forEach(el => write el's style)`, in list order. */
  function WriteAll(t: Node, ps: seq<Path>, w: StyleWrite): Node
    requires ElementPaths(t, ps)
    decreases |ps|, 0
  {
    if ps == [] then t
    else
      var m := |ps| - 1;
      var front := WriteAll(t, ps[..m], w);
      WriteAllShape(t, ps[..m], w);
      StillElement(t, front, ps[m]);
      SetStyle(front, ps[m], Apply(w, StyleOf(At(front, ps[m]))))
  }

  /** The writes change styles and nothing else. */
  lemma {:induction false} WriteAllShape(t: Node, ps: seq<Path>, w: StyleWrite)
    requires ElementPaths(t, ps)
    ensures Unstyled(WriteAll(t, ps, w)) == Unstyled(t)
    decreases |ps|, 1
  {
    if ps != [] {
      var m := |ps| - 1;
      var front := WriteAll(t, ps[..m], w);
      WriteAllShape(t, ps[..m], w);
      StillElement(t, front, ps[m]);
      SetStyleUnstyled(front, ps[m], Apply(w, StyleOf(At(front, ps[m]))));
    }
  }

  lemma DistinctFront(ps: seq<Path>)
    requires Distinct(ps) && ps != []
    ensures Distinct(ps[..|ps| - 1]) && ps[|ps| - 1] !in ps[..|ps| - 1]
  {
    var m := |ps| - 1;
    assert forall k :: 0 <= k < m ==> ps[..m][k] == ps[k];
  }

  lemma FullSlice<T>(s: seq<T>)
    ensures s[..|s|] == s
  {
  }

  lemma SplitLast<T>(s: seq<T>, y: T)
    requires s != []
    ensures s[..|s| - 1] + [s[|s| - 1]] == s
    ensures y in s <==> y in s[..|s| - 1] || y == s[|s| - 1]
  {
  }

  /** A single style write, seen from any path. */
  lemma WriteOneEffect(t: Node, x: Path, css: string, q: Path)
    requires ValidPath(t, x) && At(t, x).Element? && ValidPath(t, q)
    ensures ValidPath(SetStyle(t, x, css), q)
    ensures StyleOf(At(SetStyle(t, x, css), q)) == if q == x then css else StyleOf(At(t, q))
  {
    if q != x {
      SetStyleElsewhere(t, x, css, q);
    }
  }

  /**
   * After the writes, each listed element carries the written style (computed
   * from its style before), and every other node keeps its own.
   */
  lemma {:induction false} WriteAllEffect(t: Node, ps: seq<Path>, w: StyleWrite, q: Path)
    requires ElementPaths(t, ps) && Distinct(ps) && ValidPath(t, q)
    ensures ValidPath(WriteAll(t, ps, w), q)
    ensures StyleOf(At(WriteAll(t, ps, w), q)) == if q in ps then Apply(w, StyleOf(At(t, q))) else StyleOf(At(t, q))
    decreases |ps|
  {
    if ps != [] {
      var m := |ps| - 1;
      var pre, x := ps[..m], ps[m];
      DistinctFront(ps);
      WriteAllEffect(t, pre, w, q);
      var front := WriteAll(t, pre, w);
      WriteAllSnoc(t, pre, x, w);
      SplitLast(ps, q);
      var css := Apply(w, StyleOf(At(front, x)));
      WriteOneEffect(front, x, css, q);
    }
  }

  /** One more write at the end of the list. */
  lemma WriteAllSnoc(t: Node, ps: seq<Path>, x: Path, w: StyleWrite)
    requires ElementPaths(t, ps) && ValidPath(t, x) && At(t, x).Element?
    ensures ElementPaths(t, ps + [x])
    ensures var front := WriteAll(t, ps, w);
      ValidPath(front, x) && At(front, x).Element? &&
      WriteAll(t, ps + [x], w) == SetStyle(front, x, Apply(w, StyleOf(At(front, x))))
  {
    assert (ps + [x])[..|ps|] == ps;
    WriteAllShape(t, ps, w);
    StillElement(t, WriteAll(t, ps, w), x);
  }

  /** One step of the write loop. */
  lemma WriteStep(t: Node, ps: seq<Path>, k: nat, w: StyleWrite)
    requires ElementPaths(t, ps) && k < |ps| && ElementPaths(t, ps[..k])
    ensures ElementPaths(t, ps[..k + 1])
    ensures var front := WriteAll(t, ps[..k], w);
      ValidPath(front, ps[k]) && At(front, ps[k]).Element? &&
      WriteAll(t, ps[..k + 1], w) == SetStyle(front, ps[k], Apply(w, StyleOf(At(front, ps[k]))))
  {
    assert ps[..k + 1] == ps[..k] + [ps[k]];
    ElementPathsEach(t, ps, k);
    WriteAllSnoc(t, ps[..k], ps[k], w);
  }

  /** The same writes done by a loop over the list. */
  method WriteEach(t: Node, ps: seq<Path>, w: StyleWrite) returns (r: Node)
    requires ElementPaths(t, ps)
    ensures r == WriteAll(t, ps, w)
  {
    r := t;
    var k := 0;
    while k < |ps|
      invariant 0 <= k <= |ps| && ElementPaths(t, ps[..k])
      invariant r == WriteAll(t, ps[..k], w)
    {
      WriteStep(t, ps, k, w);
      r := SetStyle(r, ps[k], Apply(w, StyleOf(At(r, ps[k]))));
      k := k + 1;
    }
    FullSlice(ps);
  }

  /** The entries at even positions: `forEach((row, i) => if (i % 2 === 0) ...)`. */
  function EvenIndexed(s: seq<Path>): seq<Path> {
    if s == [] then []
    else
      var m := |s| - 1;
      EvenIndexed(s[..m]) + (if m % 2 == 0 then [s[m]] else [])
  }

  /** The `j`-th shaded row is the row at position `2 * j`. */
  lemma {:induction false} EvenIndexedAt(s: seq<Path>)
    ensures |EvenIndexed(s)| == (|s| + 1) / 2
    ensures forall j :: 0 <= j < |EvenIndexed(s)| ==> EvenIndexed(s)[j] == s[2 * j]
    decreases |s|
  {
    if s != [] {
      var m := |s| - 1;
      EvenIndexedAt(s[..m]);
    }
  }

  lemma EvenIndexedStep(s: seq<Path>, i: nat)
    requires i < |s|
    ensures EvenIndexed(s[..i + 1]) == EvenIndexed(s[..i]) + (if i % 2 == 0 then [s[i]] else [])
  {
    assert s[..i + 1][..i] == s[..i];
  }

  lemma {:induction false} EvenIndexedElements(t: Node, s: seq<Path>)
    requires ElementPaths(t, s)
    ensures ElementPaths(t, EvenIndexed(s))
    decreases |s|
  {
    if s != [] {
      var m := |s| - 1;
      EvenIndexedElements(t, s[..m]);
      if m % 2 == 0 {
        WriteAllSnoc(t, EvenIndexed(s[..m]), s[m], ShadeBackground);
      } else {
        assert EvenIndexed(s[..m]) + [] == EvenIndexed(s[..m]);
      }
    }
  }

  /** The shaded rows are rows, and distinct when the rows are. */
  lemma EvenIndexedFrom(s: seq<Path>)
    ensures forall j :: 0 <= j < |EvenIndexed(s)| ==> EvenIndexed(s)[j] in s
    ensures Distinct(s) ==> Distinct(EvenIndexed(s))
  {
    EvenIndexedAt(s);
    var r := EvenIndexed(s);
    if Distinct(s) {
      forall i, j | 0 <= i < j < |r| ensures r[i] != r[j] {
        assert r[i] == s[2 * i] && r[j] == s[2 * j];
      }
    }
  }

  /** Every element a tag query finds has that tag. */
  lemma QueriedTags(t: Node, tag: string)
    ensures var ps := QueryAll(t, TagIn({tag}));
      ElementPaths(t, ps) && Distinct(ps) &&
      forall k :: 0 <= k < |ps| ==> ps[k] != [] && ValidPath(t, ps[k]) && At(t, ps[k]).Element? && At(t, ps[k]).tag == tag
  {
    QueryAllElements(t, TagIn({tag}));
  }

  /** Writes below the root leave the root's tag, class and style as they were. */
  lemma RootKept(t: Node, ps: seq<Path>, w: StyleWrite)
    requires t.Element? && ElementPaths(t, ps) && Distinct(ps)
    requires forall k :: 0 <= k < |ps| ==> ps[k] != []
    ensures var r := WriteAll(t, ps, w);
      r.Element? && r.tag == t.tag && r.cls == t.cls && r.style == t.style
  {
    var r := WriteAll(t, ps, w);
    WriteAllShape(t, ps, w);
    UnstyledParts(t, r);
    WriteAllEffect(t, ps, w, []);
  }

  /**
   * A node of another tag than every listed element keeps its style through
   * the writes, and its tag.
   */
  lemma SkipsOtherTags(t: Node, ps: seq<Path>, w: StyleWrite, q: Path, tag: string, other: string)
    requires ElementPaths(t, ps) && Distinct(ps) && ValidPath(t, q) && At(t, q).Element? && At(t, q).tag == tag
    requires forall k :: 0 <= k < |ps| ==> ValidPath(t, ps[k]) && At(t, ps[k]).Element? && At(t, ps[k]).tag == other
    requires other != tag
    ensures ValidPath(WriteAll(t, ps, w), q) && At(WriteAll(t, ps, w), q).Element?
    ensures At(WriteAll(t, ps, w), q).tag == tag && StyleOf(At(WriteAll(t, ps, w), q)) == StyleOf(At(t, q))
  {
    WriteAllEffect(t, ps, w, q);
    WriteAllShape(t, ps, w);
    StillElement(t, WriteAll(t, ps, w), q);
  }

  /** With distinct rows, a row is shaded exactly when its position is even. */
  lemma EvenIndexedMember(s: seq<Path>, k: nat)
    requires Distinct(s) && k < |s|
    ensures s[k] in EvenIndexed(s) <==> k % 2 == 0
  {
    var r := EvenIndexed(s);
    EvenIndexedAt(s);
    if k % 2 == 0 {
      var h := HalfOf(k, |s|);
      assert r[h] == s[k];
    }
    if s[k] in r {
      var j :| 0 <= j < |r| && r[j] == s[k];
      assert s[2 * j] == s[k];
      DoubleIsEven(j);
    }
  }

  /** An even position below `n` is twice a position below the number of even positions. */
  lemma HalfOf(k: nat, n: nat) returns (h: nat)
    requires k < n && k % 2 == 0
    ensures 2 * h == k && h < (n + 1) / 2
  {
    h := k / 2;
  }

  lemma DoubleIsEven(j: nat)
    ensures (2 * j) % 2 == 0
  {
  }

  /** One step of the shading loop, as a write on the list of shaded rows. */
  lemma ShadeStep(t: Node, rows: seq<Path>, i: nat)
    requires ElementPaths(t, rows) && i < |rows| && ElementPaths(t, EvenIndexed(rows[..i]))
    ensures ElementPaths(t, EvenIndexed(rows[..i + 1]))
    ensures var front := WriteAll(t, EvenIndexed(rows[..i]), ShadeBackground);
      ValidPath(front, rows[i]) && At(front, rows[i]).Element? &&
      WriteAll(t, EvenIndexed(rows[..i + 1]), ShadeBackground) ==
        if i % 2 == 0 then SetStyle(front, rows[i], Apply(ShadeBackground, StyleOf(At(front, rows[i])))) else front
  {
    var done := EvenIndexed(rows[..i]);
    EvenIndexedStep(rows, i);
    ElementPathsEach(t, rows, i);
    WriteAllSnoc(t, done, rows[i], ShadeBackground);
    if i % 2 != 0 {
      assert done + [] == done;
    }
  }

  /** The shading loop: every second entry, from the first, gets the highlight. */
  method ShadeEven(t: Node, rows: seq<Path>) returns (r: Node)
    requires ElementPaths(t, rows)
    ensures ElementPaths(t, EvenIndexed(rows))
    ensures r == WriteAll(t, EvenIndexed(rows), ShadeBackground)
  {
    r := t;
    var i := 0;
    while i < |rows|
      invariant 0 <= i <= |rows| && ElementPaths(t, EvenIndexed(rows[..i]))
      invariant r == WriteAll(t, EvenIndexed(rows[..i]), ShadeBackground)
    {
      ShadeStep(t, rows, i);
      if i % 2 == 0 {
        r := SetStyle(r, rows[i], Apply(ShadeBackground, StyleOf(At(r, rows[i]))));
      }
      i := i + 1;
    }
    FullSlice(rows);
  }
}
