/**
 * Pass 1 of the surgical update: replace the introduction. The text nodes and
 * media-free paragraphs that precede the first `h2` in its parent are removed
 * and the new intro nodes go in front of that `h2`; a body without any `h2`
 * gets the intro at its very start.
 */
module IntroPass {
  import opened Wrappers
  import opened Dom

  const MediaTags: set<string> := {"IMG", "IFRAME", "FIGURE"}

  /** `querySelector('img, iframe, figure')` finds something below the node. */
  predicate HasMedia(n: Node) {
    HasTagBelow(n, MediaTags)
  }

  /** A sibling the pass deletes: a text node, or a `P` with no media in it. */
  predicate IsIntroProse(n: Node) {
    n.Text? || (IsTag(n, "P") && !HasMedia(n))
  }

  /** The siblings before the first `h2` that survive, in their order. */
  function KeepIntro(ks: seq<Node>): (r: seq<Node>)
    ensures |r| <= |ks|
  {
    if ks == [] then []
    else
      KeepIntro(ks[..|ks| - 1]) + (if IsIntroProse(ks[|ks| - 1]) then [] else [ks[|ks| - 1]])
  }

  lemma {:induction false} KeepIntroAppend(a: seq<Node>, b: seq<Node>)
    ensures KeepIntro(a + b) == KeepIntro(a) + KeepIntro(b)
    decreases |b|
  {
    if b == [] {
      assert a + b == a;
    } else {
      var b' := b[..|b| - 1];
      assert (a + b)[..|a + b| - 1] == a + b';
      KeepIntroAppend(a, b');
    }
  }

  lemma {:induction false} KeepIntroNoProse(a: seq<Node>)
    requires forall i :: 0 <= i < |a| ==> !IsIntroProse(a[i])
    ensures KeepIntro(a) == a
    decreases |a|
  {
    if a != [] {
      var front := a[..|a| - 1];
      assert forall i :: 0 <= i < |front| ==> front[i] == a[i];
      KeepIntroNoProse(front);
      assert !IsIntroProse(a[|a| - 1]);
      assert a == front + [a[|a| - 1]];
    }
  }

  /** Exactly the non-prose siblings survive. */
  lemma {:induction false} KeepIntroMembers(ks: seq<Node>)
    ensures forall n :: n in KeepIntro(ks) <==> n in ks && !IsIntroProse(n)
    decreases |ks|
  {
    if ks != [] {
      var front := ks[..|ks| - 1];
      KeepIntroMembers(front);
      assert ks == front + [ks[|ks| - 1]];
    }
  }

  /** Running the filter on its own output removes nothing more. */
  lemma KeepIntroIdempotent(ks: seq<Node>)
    ensures KeepIntro(KeepIntro(ks)) == KeepIntro(ks)
  {
    var r := KeepIntro(ks);
    KeepIntroMembers(ks);
    assert forall i :: 0 <= i < |r| ==> r[i] in r;
    KeepIntroNoProse(r);
  }

  /** Indices below `i` of the siblings the scan collects for removal, ascending. */
  function ProseIndices(ks: seq<Node>, i: nat): (r: seq<nat>)
    requires i <= |ks|
    ensures forall j :: 0 <= j < |r| ==> r[j] < i
  {
    if i == 0 then [] else ProseIndices(ks, i - 1) + (if IsIntroProse(ks[i - 1]) then [i - 1] else [])
  }

  /** The collected indices are ascending and are exactly the prose siblings below `i`. */
  lemma {:induction false} ProseIndicesExact(ks: seq<Node>, i: nat)
    requires i <= |ks|
    ensures var r := ProseIndices(ks, i);
      (forall j :: 0 <= j < |r| ==> IsIntroProse(ks[r[j]])) &&
      (forall j, j' :: 0 <= j < j' < |r| ==> r[j] < r[j']) &&
      (forall m :: 0 <= m < i && IsIntroProse(ks[m]) ==> m in r)
  {
    if i > 0 {
      ProseIndicesExact(ks, i - 1);
    }
  }

  /** The index the removal loop deletes next, or `h` once every collected sibling is gone. */
  function NextRemoval(r: seq<nat>, k: nat, h: nat): nat {
    if k < |r| then r[k] else h
  }

  /** No sibling strictly between two collected ones (or before the first) is prose. */
  lemma GapHasNoProse(ks: seq<Node>, h: nat, r: seq<nat>, lo: int, k: nat)
    requires h <= |ks| && r == ProseIndices(ks, h) && k <= |r|
    requires k == 0 ==> lo == -1
    requires k > 0 ==> lo == r[k - 1]
    ensures lo < NextRemoval(r, k, h) <= h
    ensures forall m :: lo < m < NextRemoval(r, k, h) ==> !IsIntroProse(ks[m])
  {
    ProseIndicesExact(ks, h);
    forall m | lo < m < NextRemoval(r, k, h)
      ensures !IsIntroProse(ks[m])
    {
      forall j | 0 <= j < |r|
        ensures r[j] != m
      {
        if j < k {
          assert j == k - 1 || r[j] < r[k - 1];
        } else if k < |r| {
          assert j == k || r[k] < r[j];
        }
      }
    }
  }

  lemma KeepIntroStart(ks: seq<Node>, h: nat, r: seq<nat>)
    requires h <= |ks| && r == ProseIndices(ks, h)
    ensures NextRemoval(r, 0, h) <= h
    ensures KeepIntro(ks[..NextRemoval(r, 0, h)]) == ks[..NextRemoval(r, 0, h)]
  {
    GapHasNoProse(ks, h, r, -1, 0);
    KeepIntroNoProse(ks[..NextRemoval(r, 0, h)]);
  }

  /** Dropping one prose node followed by a run of non-prose ones. */
  lemma KeepIntroSkip(a: seq<Node>, x: Node, gap: seq<Node>)
    requires IsIntroProse(x)
    requires forall i :: 0 <= i < |gap| ==> !IsIntroProse(gap[i])
    ensures KeepIntro(a + [x] + gap) == KeepIntro(a) + gap
  {
    var ax := a + [x];
    KeepIntroNoProse(gap);
    KeepIntroAppend(ax, gap);
    KeepIntroAppend(a, [x]);
    assert KeepIntro([x]) == [] by {
      assert [x][..0] == [];
    }
    assert KeepIntro(ax) == KeepIntro(a);
  }

  /** Removing the `k`-th collected sibling moves the kept prefix on to the next one. */
  lemma KeepIntroStep(ks: seq<Node>, h: nat, r: seq<nat>, k: nat)
    requires h <= |ks| && r == ProseIndices(ks, h) && k < |r|
    ensures r[k] < NextRemoval(r, k + 1, h) <= h
    ensures KeepIntro(ks[..NextRemoval(r, k + 1, h)])
      == KeepIntro(ks[..r[k]]) + ks[r[k] + 1..NextRemoval(r, k + 1, h)]
  {
    var d, d' := r[k], NextRemoval(r, k + 1, h);
    ProseIndicesExact(ks, h);
    GapHasNoProse(ks, h, r, d, k + 1);
    var gap := ks[d + 1..d'];
    forall i | 0 <= i < |gap|
      ensures !IsIntroProse(gap[i])
    {
      assert gap[i] == ks[d + 1 + i];
    }
    SliceSplit(ks, d, d');
    KeepIntroSkip(ks[..d], ks[d], gap);
  }

  lemma SliceSplit(s: seq<Node>, d: nat, e: nat)
    requires d < e <= |s|
    ensures s[..e] == s[..d] + [s[d]] + s[d + 1..e]
  {
  }

  /** Where the first `h2` now stands: its parent's path and its new index there. */
  function Anchor(body: Node, p: Path, intro: seq<Node>): Path
    requires ValidPath(body, p) && p != []
  {
    ParentStep(body, p);
    Parent(p) + [|KeepIntro(At(body, Parent(p)).kids[..Last(p)])| + |intro|]
  }

  /** The body after the intro pass when the first `h2` is at `p`. */
  function IntroBefore(body: Node, p: Path, intro: seq<Node>): Node
    requires ValidPath(body, p) && p != []
  {
    ParentStep(body, p);
    var ks := At(body, Parent(p)).kids;
    WithKids(body, Parent(p), KeepIntro(ks[..Last(p)]) + intro + ks[Last(p)..])
  }

  /**
   * The body after the intro pass, and the path at which the first `h2` (if
   * any) now stands.
   */
  function IntroSpec(body: Node, intro: seq<Node>): (Node, Option<Path>)
    requires body.Element?
  {
    match QueryFirst(body, TagIn({"H2"}))
    case None => (body.(kids := intro + body.kids), None)
    case Some(p) => (IntroBefore(body, p, intro), Some(Anchor(body, p, intro)))
  }

  /** The scan loop: the indices of the prose siblings before index `h`, in order. */
  method CollectIntroProse(ks: seq<Node>, h: nat) returns (nodesToRemove: seq<nat>)
    requires h <= |ks|
    ensures nodesToRemove == ProseIndices(ks, h)
  {
    nodesToRemove := [];
    var i := 0;
    while i < h
      invariant 0 <= i <= h
      invariant nodesToRemove == ProseIndices(ks, i)
    {
      if IsIntroProse(ks[i]) {
        nodesToRemove := nodesToRemove + [i];
      }
      i := i + 1;
    }
  }

  /**
   * The scan and removal loops: the prose siblings before index `h` of `parent`
   * are collected, then removed one by one.
   */
  method RemoveIntroProse(doc: Document, parent: Path, h: nat) returns (removed: nat)
    requires doc.Valid() && ValidPath(doc.body, parent) && At(doc.body, parent).Element?
    requires h <= |At(doc.body, parent).kids|
    modifies doc
    ensures doc.Valid()
    ensures var ks := old(At(doc.body, parent)).kids;
      doc.body == WithKids(old(doc.body), parent, KeepIntro(ks[..h]) + ks[h..])
      && removed <= h && |KeepIntro(ks[..h])| == h - removed
  {
    var ks := At(doc.body, parent).kids;
    var nodesToRemove := CollectIntroProse(ks, h);
    ghost var keptAt := KeptPrefixes(ks, h, nodesToRemove);
    RemoveCollected(doc, parent, ks, h, nodesToRemove, keptAt);
    removed := |nodesToRemove|;
  }

  /**
   * What is left before the `k`-th collected sibling once the `k` before it are
   * gone, for every `k`; the last entry is what is left before the `h2`.
   */
  ghost function KeptPrefixes(ks: seq<Node>, h: nat, r: seq<nat>): (keptAt: seq<seq<Node>>)
    requires h <= |ks| && r == ProseIndices(ks, h)
    ensures |keptAt| == |r| + 1 && keptAt[|r|] == KeepIntro(ks[..h])
    ensures keptAt[0] == ks[..NextRemoval(r, 0, h)]
    ensures forall k :: 0 <= k <= |r| ==> k <= NextRemoval(r, k, h) <= h && |keptAt[k]| == NextRemoval(r, k, h) - k
    ensures forall k :: 0 <= k < |r| ==>
      NextRemoval(r, k, h) < NextRemoval(r, k + 1, h) && keptAt[k + 1] == keptAt[k] + ks[r[k] + 1..NextRemoval(r, k + 1, h)]
  {
    var keptAt := seq(|r| + 1, k requires 0 <= k <= |r| => KeepIntro(ks[..NextRemoval(r, k, h)]));
    KeepIntroStart(ks, h, r);
    forall k | 0 <= k < |r|
      ensures NextRemoval(r, k, h) < NextRemoval(r, k + 1, h)
      ensures keptAt[k + 1] == keptAt[k] + ks[r[k] + 1..NextRemoval(r, k + 1, h)]
    {
      KeepIntroStep(ks, h, r, k);
    }
    KeptLengths(ks, h, r, keptAt, |r|);
    keptAt
  }

  lemma {:induction false} KeptLengths(ks: seq<Node>, h: nat, r: seq<nat>, keptAt: seq<seq<Node>>, n: nat)
    requires h <= |ks| && r == ProseIndices(ks, h) && |keptAt| == |r| + 1 && n <= |r|
    requires keptAt[0] == ks[..NextRemoval(r, 0, h)] && NextRemoval(r, 0, h) <= h
    requires forall k :: 0 <= k < |r| ==>
      NextRemoval(r, k, h) < NextRemoval(r, k + 1, h) && keptAt[k + 1] == keptAt[k] + ks[r[k] + 1..NextRemoval(r, k + 1, h)]
    ensures forall k :: 0 <= k <= n ==> k <= NextRemoval(r, k, h) <= h && |keptAt[k]| == NextRemoval(r, k, h) - k
    decreases n
  {
    if n > 0 {
      KeptLengths(ks, h, r, keptAt, n - 1);
      assert NextRemoval(r, n - 1, h) == r[n - 1];
      if n < |r| {
        assert r[n - 1] < r[n] by {
          ProseIndicesExact(ks, h);
        }
      }
    }
  }

  /** The removal loop: the `k`-th collected sibling now stands `k` places further left. */
  method RemoveCollected(doc: Document, parent: Path, ghost ks: seq<Node>, h: nat, nodesToRemove: seq<nat>,
                         ghost keptAt: seq<seq<Node>>)
    requires doc.Valid() && ValidPath(doc.body, parent) && At(doc.body, parent).Element?
    requires At(doc.body, parent).kids == ks && h <= |ks|
    requires |keptAt| == |nodesToRemove| + 1
    requires forall k :: 0 <= k <= |nodesToRemove| ==>
      k <= NextRemoval(nodesToRemove, k, h) <= h && |keptAt[k]| == NextRemoval(nodesToRemove, k, h) - k
    requires keptAt[0] == ks[..NextRemoval(nodesToRemove, 0, h)]
    requires forall k :: 0 <= k < |nodesToRemove| ==>
      NextRemoval(nodesToRemove, k, h) < NextRemoval(nodesToRemove, k + 1, h) &&
      keptAt[k + 1] == keptAt[k] + ks[nodesToRemove[k] + 1..NextRemoval(nodesToRemove, k + 1, h)]
    modifies doc
    ensures doc.Valid()
    ensures doc.body == WithKids(old(doc.body), parent, keptAt[|nodesToRemove|] + ks[h..])
  {
    ghost var b0 := doc.body;
    WithKidsSame(b0, parent);
    SliceRest(ks, 0, NextRemoval(nodesToRemove, 0, h));
    var k := 0;
    ghost var d := NextRemoval(nodesToRemove, 0, h);
    while k < |nodesToRemove|
      invariant 0 <= k <= |nodesToRemove| && d == NextRemoval(nodesToRemove, k, h)
      invariant doc.Valid() && ValidPath(doc.body, parent) && At(doc.body, parent).Element?
      invariant doc.body == WithKids(b0, parent, keptAt[k] + ks[d..])
    {
      ghost var d' := NextRemoval(nodesToRemove, k + 1, h);
      assert d == nodesToRemove[k] && |keptAt[k]| == d - k && d < d' <= h;
      RemovalStep(b0, parent, ks, keptAt[k], keptAt[k + 1], d, d');
      doc.RemoveChild(parent, nodesToRemove[k] - k);
      k, d := k + 1, d';
    }
  }

  /** One turn of the removal loop, on the whole tree. */
  lemma RemovalStep(b0: Node, parent: Path, ks: seq<Node>, kept: seq<Node>, kept': seq<Node>, d: nat, d': nat)
    requires ValidPath(b0, parent) && At(b0, parent).Element?
    requires d < d' <= |ks| && kept' == kept + ks[d + 1..d']
    ensures WithKids(WithKids(b0, parent, kept + ks[d..]), parent, RemoveAt(kept + ks[d..], |kept|))
      == WithKids(b0, parent, kept' + ks[d'..])
  {
    SliceRest(ks, d + 1, d');
    RemoveAfter(b0, parent, kept, ks[d..]);
    Regroup(kept, ks[d + 1..d'], ks[d'..], ks[d..][1..], kept');
  }

  /** `ks[d..]` without its first node, split at `e`. */
  lemma SliceRest(ks: seq<Node>, d: nat, e: nat)
    requires d <= e <= |ks|
    ensures ks[d..] == ks[d..e] + ks[e..]
    ensures d > 0 ==> ks[d - 1..][1..] == ks[d..e] + ks[e..]
    ensures d == 0 ==> ks == ks[..e] + ks[e..]
  {
  }

  /** The insertion loop: each intro node goes in before the `h2` at index `at`, so they keep their order. */
  method InsertIntro(doc: Document, parent: Path, at: nat, intro: seq<Node>)
    requires doc.Valid() && ValidPath(doc.body, parent) && At(doc.body, parent).Element?
    requires at < |At(doc.body, parent).kids|
    modifies doc
    ensures doc.Valid()
    ensures var ks := old(At(doc.body, parent)).kids;
      doc.body == WithKids(old(doc.body), parent, ks[..at] + intro + ks[at..])
  {
    ghost var b0 := doc.body;
    ghost var ks := At(doc.body, parent).kids;
    WithKidsSame(b0, parent);
    SliceRest(ks, 0, at);
    assert ks[..at] + intro[..0] + ks[at..] == ks;
    var m := 0;
    while m < |intro|
      invariant 0 <= m <= |intro|
      invariant doc.Valid() && ValidPath(doc.body, parent) && At(doc.body, parent).Element?
      invariant doc.body == WithKids(b0, parent, ks[..at] + intro[..m] + ks[at..])
    {
      ghost var cur := ks[..at] + intro[..m] + ks[at..];
      InsertStep(ks[..at], intro, m, ks[at..]);
      WithKidsTwice(b0, parent, cur, ks[..at] + intro[..m + 1] + ks[at..]);
      doc.InsertBefore(parent, intro[m], at + m);
      m := m + 1;
    }
    assert intro[..|intro|] == intro;
  }

  lemma Regroup(a: seq<Node>, b: seq<Node>, c: seq<Node>, bc: seq<Node>, ab: seq<Node>)
    requires bc == b + c && ab == a + b
    ensures a + bc == ab + c
  {
  }

  lemma InsertStep(pre: seq<Node>, xs: seq<Node>, m: nat, post: seq<Node>)
    requires m < |xs|
    ensures InsertAt(pre + xs[..m] + post, |pre| + m, xs[m]) == pre + xs[..m + 1] + post
  {
    assert xs[..m + 1] == xs[..m] + [xs[m]];
  }

  /** The no-`h2` case: the intro nodes, taken last to first, each go in front of the body's first child. */
  method PrependIntro(doc: Document, intro: seq<Node>)
    requires doc.Valid()
    modifies doc
    ensures doc.Valid()
    ensures doc.body == old(doc.body).(kids := intro + old(doc.body).kids)
  {
    ghost var b0 := doc.body;
    var m := |intro|;
    while m > 0
      invariant 0 <= m <= |intro|
      invariant doc.Valid() && doc.body == b0.(kids := intro[m..] + b0.kids)
    {
      m := m - 1;
      assert intro[m..] == [intro[m]] + intro[m + 1..];
      if |doc.body.kids| > 0 {
        doc.InsertBefore([], intro[m], 0);
      } else {
        doc.AppendChild([], intro[m]);
      }
    }
  }

  /**
   * The intro pass on the document: returns where the first `h2` now stands, for
   * the key-takeaways pass, which inserts before that same node.
   */
  method ReplaceIntro(doc: Document, intro: seq<Node>) returns (firstH2: Option<Path>)
    requires doc.Valid()
    modifies doc
    ensures doc.Valid()
    ensures (doc.body, firstH2) == IntroSpec(old(doc.body), intro)
  {
    var found := QueryFirst(doc.body, TagIn({"H2"}));
    if found.None? {
      PrependIntro(doc, intro);
      firstH2 := None;
    } else {
      var anchor := ReplaceBeforeH2(doc, found.value, intro);
      firstH2 := Some(anchor);
    }
  }

  /** The intro pass when the first `h2` is at `p`: clear the prose before it, then insert. */
  method ReplaceBeforeH2(doc: Document, p: Path, intro: seq<Node>) returns (anchor: Path)
    requires doc.Valid() && ValidPath(doc.body, p) && p != []
    modifies doc
    ensures doc.Valid()
    ensures doc.body == IntroBefore(old(doc.body), p, intro) && anchor == Anchor(old(doc.body), p, intro)
  {
    ghost var b0 := doc.body;
    ParentStep(doc.body, p);
    var parent, h := Parent(p), Last(p);
    ghost var ks := At(doc.body, parent).kids;
    var removed := RemoveIntroProse(doc, parent, h);
    ghost var kept := KeepIntro(ks[..h]);
    ghost var mid := kept + ks[h..];
    assert At(doc.body, parent).kids == mid && |kept| == h - removed;
    InsertIntro(doc, parent, h - removed, intro);
    IntroRegroup(b0, parent, kept, ks[h..], intro);
    assert doc.body == WithKids(b0, parent, kept + intro + ks[h..]);
    anchor := parent + [h - removed + |intro|];
  }

  lemma IntroRegroup(b0: Node, parent: Path, kept: seq<Node>, rest: seq<Node>, intro: seq<Node>)
    requires ValidPath(b0, parent) && At(b0, parent).Element?
    ensures var mid := kept + rest;
      WithKids(WithKids(b0, parent, mid), parent, mid[..|kept|] + intro + mid[|kept|..])
      == WithKids(b0, parent, kept + intro + rest)
  {
    var mid := kept + rest;
    assert mid[..|kept|] == kept && mid[|kept|..] == rest;
    WithKidsTwice(b0, parent, mid, kept + intro + rest);
  }

  /**
   * Of the siblings before the `h2`, exactly those that are not intro prose
   * (paragraphs holding media, other elements, comments) survive.
   */
  lemma KeptSiblings(ks: seq<Node>, h: nat)
    requires h <= |ks|
    ensures forall j :: 0 <= j < h && !IsIntroProse(ks[j]) ==> ks[j] in KeepIntro(ks[..h])
    ensures forall n :: n in KeepIntro(ks[..h]) ==> n in ks[..h] && !IsIntroProse(n)
  {
    KeepIntroMembers(ks[..h]);
    forall j | 0 <= j < h && !IsIntroProse(ks[j])
      ensures ks[j] in KeepIntro(ks[..h])
    {
      assert ks[j] == ks[..h][j];
    }
  }

  /**
   * With an `h2` at `p`: its parent now holds the surviving siblings, then the
   * intro in its order, then the `h2` itself, at the returned anchor, and
   * everything that followed it.
   */
  lemma IntroBeforeFirstH2(body: Node, intro: seq<Node>, p: Path)
    requires body.Element? && QueryFirst(body, TagIn({"H2"})) == Some(p)
    ensures p != [] && ValidPath(body, Parent(p)) && At(body, Parent(p)).Element?
    ensures Last(p) < |At(body, Parent(p)).kids|
    ensures var ks, h := At(body, Parent(p)).kids, Last(p);
      var (b, anchor) := IntroSpec(body, intro);
      var kept := KeepIntro(ks[..h]);
      ValidPath(b, Parent(p)) && At(b, Parent(p)).Element? &&
      At(b, Parent(p)).kids == kept + intro + ks[h..] &&
      anchor == Some(Parent(p) + [|kept| + |intro|]) &&
      ValidPath(b, anchor.value) && At(b, anchor.value) == At(body, p)
  {
    ParentStep(body, p);
    var pp, ks, h := Parent(p), At(body, Parent(p)).kids, Last(p);
    var kept := KeepIntro(ks[..h]);
    var b := IntroBefore(body, p, intro);
    var nk := kept + intro + ks[h..];
    assert At(b, pp).kids == nk;
    PathJoin(b, pp, [|kept| + |intro|]);
    assert At(At(b, pp), [|kept| + |intro|]) == nk[|kept| + |intro|] == ks[h];
  }

  /** Nodes outside the `h2`'s parent are left as they were. */
  lemma IntroLeavesOthers(body: Node, intro: seq<Node>, p: Path, q: Path)
    requires body.Element? && QueryFirst(body, TagIn({"H2"})) == Some(p)
    requires p != [] && ValidPath(body, q) && Apart(Parent(p), q)
    ensures ValidPath(IntroSpec(body, intro).0, q) && At(IntroSpec(body, intro).0, q) == At(body, q)
  {
    ParentStep(body, p);
    var ks := At(body, Parent(p)).kids;
    SetAtApart(body, Parent(p), At(body, Parent(p)).(kids := KeepIntro(ks[..Last(p)]) + intro + ks[Last(p)..]), q);
  }

  /** Without an `h2`, the intro nodes open the body, in their order, before all it held. */
  lemma IntroWithoutH2(body: Node, intro: seq<Node>)
    requires body.Element? && QueryFirst(body, TagIn({"H2"})).None?
    ensures var (b, anchor) := IntroSpec(body, intro);
      anchor.None? && b.Element? && |b.kids| == |intro| + |body.kids| &&
      b.kids[..|intro|] == intro && b.kids[|intro|..] == body.kids
  {
    var b := IntroSpec(body, intro).0;
    assert b.kids == intro + body.kids;
  }
}
