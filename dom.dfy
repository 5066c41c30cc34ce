/**
 * The parsed HTML tree the update engine works on: elements with a tag name
 * (upper-case, as `nodeName` reports it), a class attribute, an inline style
 * attribute and an ordered list of child nodes; text nodes; comment nodes.
 * A node reference is a path of child indices from the document body.
 */
module Dom {
  import opened Wrappers
  import opened Strings

  datatype Node =
    | Element(tag: string, cls: string, style: string, kids: seq<Node>)
    | Text(data: string)
    | Comment(data: string)

  /** `childNodes`: empty for text and comment nodes. */
  function Kids(n: Node): seq<Node> {
    if n.Element? then n.kids else []
  }

  predicate IsTag(n: Node, tag: string) {
    n.Element? && n.tag == tag
  }

  /** `textContent` of an element: its descendant text, in document order; comments add nothing. */
  function TextContent(n: Node): string {
    match n
    case Text(d) => d
    case Comment(_) => ""
    case Element(_, _, _, ks) => ForestText(ks)
  }

  function ForestText(ks: seq<Node>): string {
    if ks == [] then "" else ForestText(ks[..|ks| - 1]) + TextContent(ks[|ks| - 1])
  }

  /** `nodeValue.toLowerCase().includes(...)` on the text of a node, for any of the needles. */
  predicate TextMentions(n: Node, needles: seq<string>) {
    ContainsAny(ToLower(TextContent(n)), needles)
  }

  // ---------------------------------------------------------------------------
  // Child lists

  function InsertAt(s: seq<Node>, i: nat, x: Node): (r: seq<Node>)
    requires i <= |s|
    ensures |r| == |s| + 1 && r[i] == x && r[..i] == s[..i] && r[i + 1..] == s[i..]
  {
    s[..i] + [x] + s[i..]
  }

  function RemoveAt(s: seq<Node>, i: nat): (r: seq<Node>)
    requires i < |s|
    ensures |r| == |s| - 1 && r[..i] == s[..i] && r[i..] == s[i + 1..]
  {
    s[..i] + s[i + 1..]
  }

  // ---------------------------------------------------------------------------
  // Paths

  type Path = seq<nat>

  predicate ValidPath(t: Node, p: Path)
    decreases |p|
  {
    p == [] || (t.Element? && p[0] < |t.kids| && ValidPath(t.kids[p[0]], p[1..]))
  }

  function At(t: Node, p: Path): Node
    requires ValidPath(t, p)
    decreases |p|
  {
    if p == [] then t else At(t.kids[p[0]], p[1..])
  }

  /** The tree with the node at `p` replaced by `n`. */
  function SetAt(t: Node, p: Path, n: Node): (r: Node)
    requires ValidPath(t, p)
    ensures ValidPath(r, p) && At(r, p) == n
    ensures p != [] ==> r.Element? && r.tag == t.tag && r.cls == t.cls && r.style == t.style
    decreases |p|
  {
    if p == [] then n
    else t.(kids := t.kids[p[0] := SetAt(t.kids[p[0]], p[1..], n)])
  }

  /** The tree with the child list of the element at `p` replaced by `ks`. */
  function WithKids(t: Node, p: Path, ks: seq<Node>): (r: Node)
    requires ValidPath(t, p) && At(t, p).Element?
    ensures ValidPath(r, p) && At(r, p) == At(t, p).(kids := ks)
    ensures t.Element? ==> r.Element? && r.tag == t.tag && r.cls == t.cls && r.style == t.style
  {
    SetAt(t, p, At(t, p).(kids := ks))
  }

  lemma {:induction false} SetAtTwice(t: Node, p: Path, a: Node, b: Node)
    requires ValidPath(t, p)
    ensures SetAt(SetAt(t, p, a), p, b) == SetAt(t, p, b)
    decreases |p|
  {
    if p != [] {
      SetAtTwice(t.kids[p[0]], p[1..], a, b);
    }
  }

  lemma WithKidsTwice(t: Node, p: Path, a: seq<Node>, b: seq<Node>)
    requires ValidPath(t, p) && At(t, p).Element?
    ensures WithKids(WithKids(t, p, a), p, b) == WithKids(t, p, b)
  {
    SetAtTwice(t, p, At(t, p).(kids := a), At(t, p).(kids := b));
  }

  lemma {:induction false} SetAtSame(t: Node, p: Path)
    requires ValidPath(t, p)
    ensures SetAt(t, p, At(t, p)) == t
    decreases |p|
  {
    if p != [] {
      SetAtSame(t.kids[p[0]], p[1..]);
    }
  }

  lemma WithKidsSame(t: Node, p: Path)
    requires ValidPath(t, p) && At(t, p).Element?
    ensures WithKids(t, p, At(t, p).kids) == t
  {
    assert At(t, p).(kids := At(t, p).kids) == At(t, p);
    SetAtSame(t, p);
  }

  /** Removing the first node after `pre` from a child list set at `p`. */
  lemma RemoveAfter(t: Node, p: Path, pre: seq<Node>, rest: seq<Node>)
    requires ValidPath(t, p) && At(t, p).Element? && |rest| > 0
    ensures WithKids(WithKids(t, p, pre + rest), p, RemoveAt(pre + rest, |pre|)) == WithKids(t, p, pre + rest[1..])
  {
    assert RemoveAt(pre + rest, |pre|) == pre + rest[1..];
    WithKidsTwice(t, p, pre + rest, pre + rest[1..]);
  }

  function Parent(p: Path): Path
    requires p != []
  {
    p[..|p| - 1]
  }

  function Last(p: Path): nat
    requires p != []
  {
    p[|p| - 1]
  }

  /** Two paths neither of which leads through the other. */
  predicate Apart(p: Path, q: Path)
    decreases |p|
  {
    |p| > 0 && |q| > 0 && (p[0] != q[0] || Apart(p[1..], q[1..]))
  }

  lemma {:induction false} ParentStep(t: Node, p: Path)
    requires ValidPath(t, p) && p != []
    ensures ValidPath(t, Parent(p)) && At(t, Parent(p)).Element?
    ensures Last(p) < |At(t, Parent(p)).kids| && At(t, p) == At(t, Parent(p)).kids[Last(p)]
    decreases |p|
  {
    if |p| > 1 {
      ParentStep(t.kids[p[0]], p[1..]);
      assert Parent(p[1..]) == Parent(p)[1..];
    }
  }

  lemma {:induction false} PathJoin(t: Node, p: Path, q: Path)
    requires ValidPath(t, p)
    ensures ValidPath(t, p + q) <==> ValidPath(At(t, p), q)
    ensures ValidPath(t, p + q) ==> At(t, p + q) == At(At(t, p), q)
    decreases |p|
  {
    if p == [] {
      assert p + q == q;
    } else {
      PathJoin(t.kids[p[0]], p[1..], q);
      assert (p + q)[0] == p[0] && (p + q)[1..] == p[1..] + q;
    }
  }

  /** Replacing one node leaves every node apart from it as it was. */
  lemma {:induction false} SetAtApart(t: Node, p: Path, n: Node, q: Path)
    requires ValidPath(t, p) && ValidPath(t, q) && Apart(p, q)
    ensures ValidPath(SetAt(t, p, n), q) && At(SetAt(t, p, n), q) == At(t, q)
    decreases |p|
  {
    if p[0] != q[0] {
    } else {
      SetAtApart(t.kids[p[0]], p[1..], n, q[1..]);
    }
  }

  /** Replacing a node keeps the paths below it when the new node has the same children. */
  lemma {:induction false} SetAtBelow(t: Node, p: Path, n: Node, q: Path)
    requires ValidPath(t, p + q) && ValidPath(t, p)
    requires n.Element? && At(t, p).Element? && n.kids == At(t, p).kids && q != []
    ensures ValidPath(SetAt(t, p, n), p + q) && At(SetAt(t, p, n), p + q) == At(t, p + q)
  {
    var r := SetAt(t, p, n);
    PathJoin(t, p, q);
    PathJoin(r, p, q);
  }

  /** Replacing a node keeps its ancestors' tags, classes and styles, and their numbers of children. */
  lemma {:induction false} SetAtAbove(t: Node, p: Path, n: Node, q: Path)
    requires ValidPath(t, q + p) && p != []
    ensures ValidPath(t, q) && ValidPath(SetAt(t, q + p, n), q)
    ensures var a, b := At(t, q), At(SetAt(t, q + p, n), q);
      a.Element? && b.Element? && a.tag == b.tag && a.cls == b.cls && a.style == b.style
      && |a.kids| == |b.kids|
    decreases |q|
  {
    if q == [] {
      assert q + p == p;
    } else {
      assert (q + p)[0] == q[0] && (q + p)[1..] == q[1..] + p;
      SetAtAbove(t.kids[q[0]], p, n, q[1..]);
    }
  }

  /** Two paths are apart, or one of them leads through the other. */
  lemma {:induction false} PathCases(p: Path, q: Path)
    ensures Apart(p, q) || p <= q || q <= p
    decreases |p|
  {
    if p != [] && q != [] && p[0] == q[0] {
      PathCases(p[1..], q[1..]);
      if p[1..] <= q[1..] {
        assert p == [p[0]] + p[1..] && q[..|p|] == [q[0]] + q[1..][..|p| - 1];
      } else if q[1..] <= p[1..] {
        assert q == [q[0]] + q[1..] && p[..|q|] == [p[0]] + p[1..][..|q| - 1];
      }
    }
  }

  /** The element at `p` has the same tag, class, style and number of children in `a` and in `b`. */
  predicate SameFields(a: Node, b: Node, p: Path) {
    ValidPath(a, p) && ValidPath(b, p) && At(a, p).Element? && At(b, p).Element? &&
    At(a, p).tag == At(b, p).tag && At(a, p).cls == At(b, p).cls && At(a, p).style == At(b, p).style &&
    |At(a, p).kids| == |At(b, p).kids|
  }

  /**
   * Replacing the node at `q` leaves every node apart from it as it was, and
   * every node above it with its tag, class, style and number of children.
   */
  lemma SetAtFrame(t: Node, q: Path, n: Node)
    requires ValidPath(t, q)
    ensures forall p :: ValidPath(t, p) && Apart(q, p) ==> ValidPath(SetAt(t, q, n), p) && At(SetAt(t, q, n), p) == At(t, p)
    ensures forall p :: p < q ==> SameFields(t, SetAt(t, q, n), p)
  {
    forall p | ValidPath(t, p) && Apart(q, p)
      ensures ValidPath(SetAt(t, q, n), p) && At(SetAt(t, q, n), p) == At(t, p)
    {
      SetAtApart(t, q, n, p);
    }
    forall p | p < q
      ensures SameFields(t, SetAt(t, q, n), p)
    {
      var r := q[|p|..];
      assert q == p + r && r != [];
      SetAtAbove(t, r, n, p);
    }
  }

  /** The child `i` of the element at `p` is reached by the path `p + [i]`. */
  lemma ChildAt(t: Node, p: Path, i: nat)
    requires ValidPath(t, p) && At(t, p).Element? && i < |At(t, p).kids|
    ensures ValidPath(t, p + [i]) && At(t, p + [i]) == At(t, p).kids[i]
    ensures Parent(p + [i]) == p && Last(p + [i]) == i
  {
    PathJoin(t, p, [i]);
  }

  /** Replacing a node is replacing one entry of its parent's child list. */
  lemma {:induction false} SetAtChild(t: Node, p: Path, n: Node)
    requires ValidPath(t, p) && p != []
    ensures ValidPath(t, Parent(p)) && At(t, Parent(p)).Element? && Last(p) < |At(t, Parent(p)).kids|
    ensures SetAt(t, p, n) == WithKids(t, Parent(p), At(t, Parent(p)).kids[Last(p) := n])
    decreases |p|
  {
    ParentStep(t, p);
    if |p| > 1 {
      var c, q := t.kids[p[0]], p[1..];
      SetAtChild(c, q, n);
      assert Parent(p)[0] == p[0] && Parent(p)[1..] == Parent(q) && Last(p) == Last(q);
      assert At(t, Parent(p)) == At(c, Parent(q));
    }
  }

  /** `parent.insertBefore(node, ref)` for the node `ref` at path `a`. */
  function InsertBeforePath(t: Node, a: Path, n: Node): (r: Node)
    requires ValidPath(t, a) && a != []
    ensures ValidPath(t, Parent(a)) && At(t, Parent(a)).Element? && Last(a) < |At(t, Parent(a)).kids|
  {
    ParentStep(t, a);
    WithKids(t, Parent(a), InsertAt(At(t, Parent(a)).kids, Last(a), n))
  }

  /** After `insertBefore`, the new node stands at `a` and the old one just after it. */
  lemma InsertedBefore(t: Node, a: Path, n: Node)
    requires ValidPath(t, a) && a != []
    ensures var r := InsertBeforePath(t, a, n);
      var next := Parent(a) + [Last(a) + 1];
      ValidPath(r, a) && At(r, a) == n && ValidPath(r, next) && At(r, next) == At(t, a)
      && ValidPath(r, Parent(a)) && At(r, Parent(a)).Element?
      && |At(r, Parent(a)).kids| == |At(t, Parent(a)).kids| + 1
  {
    var r := InsertBeforePath(t, a, n);
    ParentStep(t, a);
    var pp, i := Parent(a), Last(a);
    var ks := At(t, pp).kids;
    var nk := InsertAt(ks, i, n);
    assert At(r, pp).kids == nk;
    assert nk[i] == n && nk[i + 1] == ks[i];
    ChildAt(r, pp, i);
    ChildAt(r, pp, i + 1);
    assert pp + [i] == a;
  }

  lemma {:induction false} ForestTextAppend(a: seq<Node>, b: seq<Node>)
    ensures ForestText(a + b) == ForestText(a) + ForestText(b)
    decreases |b|
  {
    if b == [] {
      assert a + b == a;
    } else {
      var m := |b| - 1;
      assert (a + b)[..|a + b| - 1] == a + b[..m] && (a + b)[|a + b| - 1] == b[m];
      ForestTextAppend(a, b[..m]);
    }
  }

  // ---------------------------------------------------------------------------
  // Document order

  /** Every node below `n`, as a path from `n`, in document (pre-)order. */
  function Descendants(n: Node): seq<Path> {
    match n
    case Element(_, _, _, ks) => ForestPaths(ks)
    case _ => []
  }

  function ForestPaths(ks: seq<Node>): seq<Path> {
    if ks == [] then []
    else ForestPaths(ks[..|ks| - 1]) + [[|ks| - 1]] + Under(|ks| - 1, Descendants(ks[|ks| - 1]))
  }

  function Under(i: nat, ps: seq<Path>): (r: seq<Path>)
    ensures |r| == |ps| && forall j :: 0 <= j < |ps| ==> r[j] == [i] + ps[j]
  {
    seq(|ps|, j requires 0 <= j < |ps| => [i] + ps[j])
  }

  predicate Distinct(ps: seq<Path>) {
    forall i, j :: 0 <= i < j < |ps| ==> ps[i] != ps[j]
  }

  lemma {:induction false} DescendantsValid(n: Node)
    ensures forall k :: 0 <= k < |Descendants(n)| ==>
      Descendants(n)[k] != [] && ValidPath(n, Descendants(n)[k])
    ensures Distinct(Descendants(n))
  {
    match n
    case Element(_, _, _, ks) =>
      ForestPathsValid(ks);
      forall k | 0 <= k < |Descendants(n)|
        ensures ValidPath(n, Descendants(n)[k])
      {
        var p := Descendants(n)[k];
        assert p[0] < |ks| && ValidPath(ks[p[0]], p[1..]);
      }
    case _ =>
  }

  lemma {:induction false} ForestPathsValid(ks: seq<Node>)
    ensures forall k :: 0 <= k < |ForestPaths(ks)| ==>
      var p := ForestPaths(ks)[k];
      p != [] && p[0] < |ks| && ValidPath(ks[p[0]], p[1..])
    ensures Distinct(ForestPaths(ks))
    decreases ks, 1
  {
    if ks != [] {
      var m := |ks| - 1;
      var front, d := ForestPaths(ks[..m]), Descendants(ks[m]);
      ForestPathsValid(ks[..m]);
      DescendantsValid(ks[m]);
      var all := ForestPaths(ks);
      assert all == front + [[m]] + Under(m, d);
      forall k | 0 <= k < |all|
        ensures all[k] != [] && all[k][0] < |ks| && ValidPath(ks[all[k][0]], all[k][1..])
      {
        if k < |front| {
          assert all[k] == front[k];
          assert ks[..m][all[k][0]] == ks[all[k][0]];
        } else if k == |front| {
          assert all[k] == [m];
        } else {
          assert all[k] == [m] + d[k - |front| - 1];
          assert all[k][1..] == d[k - |front| - 1];
        }
      }
      forall i, j | 0 <= i < j < |all|
        ensures all[i] != all[j]
      {
        if j < |front| {
          assert all[i] == front[i] && all[j] == front[j];
        } else if i < |front| {
          assert all[i] == front[i];
          assert all[i][0] < m && all[j][0] == m;
        } else if i == |front| {
          assert all[i] == [m];
          assert all[j] == [m] + d[j - |front| - 1];
        } else {
          assert all[i] == [m] + d[i - |front| - 1] && all[j] == [m] + d[j - |front| - 1];
          assert all[i][1..] == d[i - |front| - 1] && all[j][1..] == d[j - |front| - 1];
        }
      }
    }
  }

  /** Some element strictly below `n` has one of the tags: `n.querySelector('t1, t2, ...') !== null`. */
  predicate HasTagBelow(n: Node, tags: set<string>) {
    n.Element? && ForestHasTag(n.kids, tags)
  }

  predicate ForestHasTag(ks: seq<Node>, tags: set<string>)
    decreases ks
  {
    ks != [] &&
    (ForestHasTag(ks[..|ks| - 1], tags) ||
     (ks[|ks| - 1].Element? && (ks[|ks| - 1].tag in tags || ForestHasTag(ks[|ks| - 1].kids, tags))))
  }

  // ---------------------------------------------------------------------------
  // Selectors: `querySelector` / `querySelectorAll` with the `.find` predicates the engine uses

  predicate IsAsciiSpace(c: char) {
    c == ' ' || c == '\t' || c == '\n' || c == '\U{000C}' || c == '\r'
  }

  /** Length of the leading run of non-space characters. */
  function TokenLength(s: string): (n: nat)
    requires s != [] && !IsAsciiSpace(s[0])
    ensures 0 < n <= |s|
  {
    if |s| == 1 || IsAsciiSpace(s[1]) then 1 else 1 + TokenLength(s[1..])
  }

  /** The class attribute split into its space-separated class names. */
  function ClassTokens(s: string): seq<string>
    decreases |s|
  {
    if s == [] then []
    else if IsAsciiSpace(s[0]) then ClassTokens(s[1..])
    else [s[..TokenLength(s)]] + ClassTokens(s[TokenLength(s)..])
  }

  /** A leading run of non-space characters that fills the string. */
  lemma {:induction false} TokenLengthWhole(s: string)
    requires s != [] && forall i :: 0 <= i < |s| ==> !IsAsciiSpace(s[i])
    ensures TokenLength(s) == |s|
    decreases |s|
  {
    if |s| > 1 {
      TokenLengthWhole(s[1..]);
    }
  }

  /** A class attribute without spaces is one class name. */
  lemma OneToken(s: string)
    requires s != [] && forall i :: 0 <= i < |s| ==> !IsAsciiSpace(s[i])
    ensures ClassTokens(s) == [s]
  {
    TokenLengthWhole(s);
    assert s[..|s|] == s && s[|s|..] == [];
  }

  datatype Selector =
    | TagIn(tags: set<string>)                              // `h2, h3, ...`
    | TagMentioning(tags: set<string>, needles: seq<string>) // the same, then `.find` on lower-cased text
    | HasClass(name: string)                                  // `.name`
    | BodyRow                                                 // `tbody tr`

  /** Some element strictly between the root and the node at `p` is a `TBODY`. */
  predicate InTbody(t: Node, p: Path)
    requires ValidPath(t, p)
    decreases |p|
  {
    |p| > 1 && (IsTag(t.kids[p[0]], "TBODY") || InTbody(t.kids[p[0]], p[1..]))
  }

  predicate Matches(t: Node, p: Path, sel: Selector) {
    ValidPath(t, p) && p != [] && At(t, p).Element? &&
    match sel
    case TagIn(tags) => At(t, p).tag in tags
    case TagMentioning(tags, needles) => At(t, p).tag in tags && TextMentions(At(t, p), needles)
    case HasClass(name) => name in ClassTokens(At(t, p).cls)
    case BodyRow => At(t, p).tag == "TR" && InTbody(t, p)
  }

  function FilterMatches(t: Node, ps: seq<Path>, sel: Selector): (r: seq<Path>)
    ensures forall k :: 0 <= k < |r| ==> Matches(t, r[k], sel) && r[k] in ps
    ensures forall k :: 0 <= k < |ps| && Matches(t, ps[k], sel) ==> ps[k] in r
    ensures Distinct(ps) ==> Distinct(r)
  {
    if ps == [] then []
    else
      var front := FilterMatches(t, ps[..|ps| - 1], sel);
      assert forall k :: 0 <= k < |ps| - 1 ==> ps[..|ps| - 1][k] == ps[k];
      front + (if Matches(t, ps[|ps| - 1], sel) then [ps[|ps| - 1]] else [])
  }

  /** `root.querySelectorAll(sel)`: the matching nodes below `root`, in document order. */
  function QueryAll(root: Node, sel: Selector): (r: seq<Path>)
    ensures Distinct(r)
    ensures forall k :: 0 <= k < |r| ==> Matches(root, r[k], sel)
  {
    DescendantsValid(root);
    FilterMatches(root, Descendants(root), sel)
  }

  /** `r` keeps the order of `ps`: of two entries of `r`, the earlier one comes earlier in `ps`. */
  predicate InOrderOf(r: seq<Path>, ps: seq<Path>) {
    forall i, j :: 0 <= i < j < |r| ==> exists a, b :: 0 <= a < b < |ps| && ps[a] == r[i] && ps[b] == r[j]
  }

  /** Filtering keeps the order of what it keeps. */
  lemma {:induction false} FilterMatchesInOrder(t: Node, ps: seq<Path>, sel: Selector)
    ensures InOrderOf(FilterMatches(t, ps, sel), ps)
  {
    if ps != [] {
      var m := |ps| - 1;
      var init := ps[..m];
      var front := FilterMatches(t, init, sel);
      var r := FilterMatches(t, ps, sel);
      FilterMatchesInOrder(t, init, sel);
      assert forall a :: 0 <= a < m ==> init[a] == ps[a];
      forall i, j | 0 <= i < j < |r|
        ensures exists a, b :: 0 <= a < b < |ps| && ps[a] == r[i] && ps[b] == r[j]
      {
        assert r[i] == front[i];
        if j < |front| {
          assert r[j] == front[j];
          var a, b :| 0 <= a < b < |init| && init[a] == front[i] && init[b] == front[j];
          assert ps[a] == r[i] && ps[b] == r[j];
        } else {
          assert r[j] == ps[m];
          var a :| 0 <= a < |init| && init[a] == front[i];
          assert ps[a] == r[i];
        }
      }
    }
  }

  /**
   * `querySelectorAll` finds exactly the matching nodes below the root, and
   * lists them in document order.
   */
  lemma QueryAllSpec(root: Node, sel: Selector)
    ensures forall k :: 0 <= k < |QueryAll(root, sel)| ==> QueryAll(root, sel)[k] in Descendants(root)
    ensures forall k :: 0 <= k < |Descendants(root)| && Matches(root, Descendants(root)[k], sel) ==>
      Descendants(root)[k] in QueryAll(root, sel)
    ensures InOrderOf(QueryAll(root, sel), Descendants(root))
  {
    FilterMatchesInOrder(root, Descendants(root), sel);
  }

  /** `ps[k]` matches and nothing before it in `ps` does. */
  predicate FirstMatchAt(t: Node, ps: seq<Path>, sel: Selector, k: int) {
    0 <= k < |ps| && Matches(t, ps[k], sel) && forall j :: 0 <= j < k ==> !Matches(t, ps[j], sel)
  }

  function FirstMatch(t: Node, ps: seq<Path>, sel: Selector): (r: Option<Path>)
    ensures r.Some? ==> Matches(t, r.value, sel)
    ensures r.Some? ==> exists k :: FirstMatchAt(t, ps, sel, k) && ps[k] == r.value
    ensures r.None? ==> forall k :: 0 <= k < |ps| ==> !Matches(t, ps[k], sel)
  {
    if ps == [] then None
    else if Matches(t, ps[0], sel) then Some(ps[0])
    else
      var r := FirstMatch(t, ps[1..], sel);
      assert forall k :: 1 <= k < |ps| ==> ps[k] == ps[1..][k - 1];
      r
  }

  /**
   * `root.querySelector(sel)` (with the `.find` of the source where the selector
   * carries text needles): the first matching node below `root` in document order.
   */
  function QueryFirst(root: Node, sel: Selector): (r: Option<Path>)
    ensures r.Some? ==> Matches(root, r.value, sel)
    ensures r.Some? ==> exists k :: FirstMatchAt(root, Descendants(root), sel, k) && Descendants(root)[k] == r.value
    ensures r.None? ==> forall k :: 0 <= k < |Descendants(root)| ==> !Matches(root, Descendants(root)[k], sel)
  {
    FirstMatch(root, Descendants(root), sel)
  }

  // ---------------------------------------------------------------------------
  // Inline styles

  /** The style attribute of an element; text and comments have none. */
  function StyleOf(n: Node): string {
    if n.Element? then n.style else ""
  }

  /** `setAttribute('style', css)` on the node at `p`. */
  function SetStyle(t: Node, p: Path, css: string): (r: Node)
    requires ValidPath(t, p) && At(t, p).Element?
    ensures ValidPath(r, p) && At(r, p) == At(t, p).(style := css)
  {
    SetAt(t, p, At(t, p).(style := css))
  }

  /** The tree with every style attribute cleared: what the style writes leave alone. */
  function Unstyled(n: Node): Node {
    match n
    case Element(tag, cls, _, ks) => Element(tag, cls, "", seq(|ks|, i requires 0 <= i < |ks| => Unstyled(ks[i])))
    case _ => n
  }

  lemma {:induction false} UnstyledPaths(a: Node, b: Node, p: Path)
    requires Unstyled(a) == Unstyled(b) && ValidPath(a, p)
    ensures ValidPath(b, p) && Unstyled(At(a, p)) == Unstyled(At(b, p))
    decreases |p|
  {
    if p != [] {
      assert Unstyled(a).kids[p[0]] == Unstyled(b).kids[p[0]];
      UnstyledPaths(a.kids[p[0]], b.kids[p[0]], p[1..]);
    }
  }

  lemma {:induction false} SetStyleUnstyled(t: Node, p: Path, css: string)
    requires ValidPath(t, p) && At(t, p).Element?
    ensures Unstyled(SetStyle(t, p, css)) == Unstyled(t)
    decreases |p|
  {
    if p != [] {
      SetStyleUnstyled(t.kids[p[0]], p[1..], css);
      var r := SetStyle(t, p, css);
      assert SetStyle(t.kids[p[0]], p[1..], css) == r.kids[p[0]];
      assert forall i :: 0 <= i < |t.kids| ==> Unstyled(r.kids[i]) == Unstyled(t.kids[i]);
    }
  }

  /** A style write changes the style of its own node and of no other. */
  lemma {:induction false} SetStyleElsewhere(t: Node, p: Path, css: string, q: Path)
    requires ValidPath(t, p) && At(t, p).Element? && ValidPath(t, q) && q != p
    ensures ValidPath(SetStyle(t, p, css), q) && StyleOf(At(SetStyle(t, p, css), q)) == StyleOf(At(t, q))
    decreases |p|
  {
    if p == [] {
      assert q != [];
    } else if q == [] {
    } else if p[0] != q[0] {
    } else {
      SetStyleElsewhere(t.kids[p[0]], p[1..], css, q[1..]);
      assert SetStyle(t, p, css).kids[p[0]] == SetStyle(t.kids[p[0]], p[1..], css);
    }
  }
  /**
   * A style write to another node keeps a node's tag, class and style, and
   * keeps the whole node when the write is not below it.
   */
  lemma SetStyleKeeps(t: Node, s: Path, css: string, q: Path)
    requires ValidPath(t, s) && At(t, s).Element? && ValidPath(t, q) && s != q
    ensures ValidPath(SetStyle(t, s, css), q)
    ensures var a, b := At(t, q), At(SetStyle(t, s, css), q);
      a.Element? == b.Element? && (a.Element? ==> a.tag == b.tag && a.cls == b.cls && a.style == b.style)
    ensures !(q <= s) ==> At(SetStyle(t, s, css), q) == At(t, q)
  {
    var n := At(t, s).(style := css);
    PathCases(s, q);
    if Apart(s, q) {
      SetAtApart(t, s, n, q);
    } else if s <= q {
      var r := q[|s|..];
      assert q == s + r;
      SetAtBelow(t, s, n, r);
    } else {
      var r := s[|q|..];
      assert s == q + r;
      SetAtAbove(t, r, n, q);
    }
  }


  // ---------------------------------------------------------------------------
  // The mutable document

  /** The parsed document; `body` is `doc.body`, which every pass mutates in place. */
  class Document {
    var body: Node

    ghost predicate Valid()
      reads this
    {
      IsTag(body, "BODY")
    }

    constructor (b: Node)
      requires IsTag(b, "BODY")
      ensures Valid() && body == b
    {
      body := b;
    }

    /** `parent.insertBefore(node, parent.childNodes[ref])`. */
    method InsertBefore(parent: Path, node: Node, ref: nat)
      requires Valid() && ValidPath(body, parent) && At(body, parent).Element?
      requires ref < |At(body, parent).kids|
      modifies this
      ensures Valid()
      ensures body == WithKids(old(body), parent, InsertAt(old(At(body, parent)).kids, ref, node))
    {
      body := WithKids(body, parent, InsertAt(At(body, parent).kids, ref, node));
    }

    /** `parent.appendChild(node)`. */
    method AppendChild(parent: Path, node: Node)
      requires Valid() && ValidPath(body, parent) && At(body, parent).Element?
      modifies this
      ensures Valid()
      ensures body == WithKids(old(body), parent, old(At(body, parent)).kids + [node])
    {
      body := WithKids(body, parent, At(body, parent).kids + [node]);
    }

    /** `parent.removeChild(parent.childNodes[index])`, also `child.remove()`. */
    method RemoveChild(parent: Path, index: nat)
      requires Valid() && ValidPath(body, parent) && At(body, parent).Element?
      requires index < |At(body, parent).kids|
      modifies this
      ensures Valid()
      ensures body == WithKids(old(body), parent, RemoveAt(old(At(body, parent)).kids, index))
    {
      body := WithKids(body, parent, RemoveAt(At(body, parent).kids, index));
    }

    /** `target.replaceWith(node)` for a node below the body. */
    method ReplaceWith(target: Path, node: Node)
      requires Valid() && ValidPath(body, target) && target != []
      modifies this
      ensures Valid()
      ensures body == SetAt(old(body), target, node)
    {
      body := SetAt(body, target, node);
    }
  }
}
